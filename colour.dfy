/**
 * Colouring of the diff-of-diffs output (`patch`) and of the stat
 * comparison (`stat`) in `src/didi/cli.py`: each output line gets a style
 * chosen from its first characters, first matching rule wins.
 */
module Colour {
  import opened PyText

  /** The foreground colours of whole-line styles. */
  datatype Fg = Red | Green | Cyan

  /** How one output line is written. */
  datatype Style =
    | Plain
      // echoed as it is
    | Foreground(fg: Fg)
      // the whole line in one foreground colour
    | Nested(bold: bool, outerBg: nat, innerBg: nat, restBg: nat)
      // white text; 256-colour backgrounds for the outer marker, the inner marker and the rest

  /** An output line: its text, which is never altered, and its style. */
  datatype StyledLine = StyledLine(text: string, style: Style)

  // 256-colour palette codes.
  const BrightGreen: nat := 28
  const DarkGreen: nat := 22
  const VeryDarkGreen: nat := 23
  const BrightRed: nat := 161
  const DarkRed: nat := 88
  const VeryDarkRed: nat := 52
  const Clear: nat := 0

  /** `prefix_bg` entry for one of the two marker characters. */
  function MarkerBg(c: char): nat {
    if c == '+' then BrightGreen else if c == '-' then BrightRed else Clear
  }

  /**
   * The style of a line of the nested diff: at least two characters, starting
   * with `+` or `-`. It follows the colour key: bold exactly for a doubled
   * marker, each marker on its own background, and the rest of the line on the
   * key's shade of the outer marker's hue.
   */
  function NestedStyle(line: string): (style: Style)
    requires |line| >= 2 && (line[0] == '+' || line[0] == '-')
    ensures style == Nested(line[1] == line[0], MarkerBg(line[0]), MarkerBg(line[1]),
                            KeyBg(line[0] == '+', ShadeOf(line[0], line[1])))
  {
    assert line[..2] == [line[0], line[1]];
    var outerBg, innerBg := MarkerBg(line[0]), MarkerBg(line[1]);
    var bright := if line[0] == '+' then BrightGreen else BrightRed;
    var dark := if line[0] == '+' then DarkGreen else DarkRed;
    var veryDark := if line[0] == '+' then VeryDarkGreen else VeryDarkRed;
    if StartsWith(line, "++") then Nested(true, outerBg, innerBg, bright)
    else if StartsWith(line, "--") then Nested(true, outerBg, innerBg, bright)
    else if StartsWith(line, "+ ") then Nested(false, outerBg, innerBg, veryDark)
    else if StartsWith(line, "- ") then Nested(false, outerBg, innerBg, veryDark)
    else if StartsWith(line, "+-") then Nested(false, outerBg, innerBg, dark)
    else if StartsWith(line, "-+") then Nested(false, outerBg, innerBg, dark)
    else Nested(false, outerBg, innerBg, dark)
  }

  /**
   * The style the `patch` render loop gives one line of the diff of diffs: the
   * first rule that matches wins. Without colour every line is plain; a
   * foreground colour goes only to header-like lines; a nested style only to a
   * `+`/`-` line of two or more characters that is not header-like.
   */
  function ClassifyPatchLine(line: string, useColor: bool): (style: Style)
    ensures !useColor ==> style == Plain
    ensures style.Foreground? ==> IsHeaderLike(line)
    ensures style.Nested? ==> |line| >= 2 && (line[0] == '+' || line[0] == '-') && !IsHeaderLike(line)
  {
    assert |line| >= 4 ==> line[..3] == line[..4][..3];
    if !useColor then Plain
    else if StartsWith(line, "---") && !StartsWith(line, "----") then Foreground(Red)
    else if StartsWith(line, "+++") && !StartsWith(line, "++++") then Foreground(Green)
    else if StartsWith(line, "@@")
            && !(StartsWith(line, "-@@") || StartsWith(line, "+@@") || StartsWith(line, " @@")) then Foreground(Cyan)
    else if StartsWith(line, "-@@") || StartsWith(line, "-index ") || StartsWith(line, "-diff ")
            || StartsWith(line, "----") || StartsWith(line, "-+++") then Foreground(Red)
    else if StartsWith(line, "+@@") || StartsWith(line, "+index ") || StartsWith(line, "+diff ")
            || StartsWith(line, "++++") || StartsWith(line, "+---") then Foreground(Green)
    else if |line| >= 2 && (line[0] == '+' || line[0] == '-') then NestedStyle(line)
    else Plain
  }

  /** The lines of a diff of diffs as they are written: each unchanged, in its style. */
  function Styled(diffLines: seq<string>, useColor: bool): (out: seq<StyledLine>)
    ensures |out| == |diffLines|
    ensures forall i :: 0 <= i < |out| ==>
              out[i].text == diffLines[i] && out[i].style == ClassifyPatchLine(diffLines[i], useColor)
  {
    seq(|diffLines|, i requires 0 <= i < |diffLines| => StyledLine(diffLines[i], ClassifyPatchLine(diffLines[i], useColor)))
  }

  /** The `patch` render loop: every line is written unchanged, in its style. */
  method RenderDiffOfDiffs(diffLines: seq<string>, useColor: bool) returns (out: seq<StyledLine>)
    ensures out == Styled(diffLines, useColor)
  {
    out := [];
    for i := 0 to |diffLines|
      invariant |out| == i
      invariant forall k :: 0 <= k < i ==>
                  out[k].text == diffLines[k] && out[k].style == ClassifyPatchLine(diffLines[k], useColor)
    {
      var line := diffLines[i];
      var style := ClassifyPatchLine(line, useColor);
      if style.Nested? {
        var bgs := PrefixBackgrounds(line[..2]);
        style := style.(outerBg := bgs[0], innerBg := bgs[1]);
      }
      out := out + [StyledLine(line, style)];
    }
    assert out == Styled(diffLines, useColor);
  }

  /** The `prefix_bg` loop: one background per marker character of a nested line. */
  method PrefixBackgrounds(prefix: string) returns (bgs: seq<nat>)
    ensures |bgs| == |prefix|
    ensures forall k :: 0 <= k < |prefix| ==> bgs[k] == MarkerBg(prefix[k])
  {
    bgs := [];
    for k := 0 to |prefix|
      invariant |bgs| == k
      invariant forall j :: 0 <= j < k ==> bgs[j] == MarkerBg(prefix[j])
    {
      var c := prefix[k];
      if c == '+' {
        bgs := bgs + [BrightGreen];
      } else if c == '-' {
        bgs := bgs + [BrightRed];
      } else {
        bgs := bgs + [Clear];
      }
    }
  }

  /**
   * The style the `stat` loop gives a line: by its first character alone,
   * green for `+`, red for `-`, cyan for `@`, plain otherwise or without colour.
   */
  function StatStyle(line: string, useColor: bool): (style: Style)
    ensures style == Plain <==> !useColor || line == [] || (line[0] != '+' && line[0] != '-' && line[0] != '@')
    ensures style != Plain ==> style == Foreground(if line[0] == '+' then Green else if line[0] == '-' then Red else Cyan)
  {
    assert line != [] ==> line[..1] == [line[0]];
    if !useColor then Plain
    else if StartsWith(line, "+") then Foreground(Green)
    else if StartsWith(line, "-") then Foreground(Red)
    else if StartsWith(line, "@") then Foreground(Cyan)
    else Plain
  }

  /**
   * The `stat` output loop: every line written unchanged in its style, and
   * "no differences" reported exactly when the diff is empty.
   */
  method RenderStat(diffLines: seq<string>, useColor: bool) returns (out: seq<StyledLine>, hasChanges: bool)
    ensures hasChanges <==> diffLines != []
    ensures |out| == |diffLines|
    ensures forall i :: 0 <= i < |out| ==>
              out[i].text == diffLines[i] && out[i].style == StatStyle(diffLines[i], useColor)
  {
    out := [];
    hasChanges := false;
    for i := 0 to |diffLines|
      invariant hasChanges <==> i > 0
      invariant |out| == i
      invariant forall k :: 0 <= k < i ==>
                  out[k].text == diffLines[k] && out[k].style == StatStyle(diffLines[k], useColor)
    {
      hasChanges := true;
      out := out + [StyledLine(diffLines[i], StatStyle(diffLines[i], useColor))];
    }
  }

  // ----- the colour key, as an independent description -----

  /** The headers of the outer diff and the metadata lines of the nested patches. */
  predicate IsHeaderLike(line: string) {
    StartsWith(line, "---") || StartsWith(line, "+++") || StartsWith(line, "@@")
    || StartsWith(line, "-@@") || StartsWith(line, "+@@")
    || StartsWith(line, "-index ") || StartsWith(line, "+index ")
    || StartsWith(line, "-diff ") || StartsWith(line, "+diff ")
    || StartsWith(line, "-+++") || StartsWith(line, "+---")
  }

  /** How dark the rest of a nested line is. */
  datatype Shade = Bright | Dark | VeryDark

  /**
   * The colour key's shade: the same marker twice is bright, an inner space
   * (context) very dark, anything else dark.
   */
  function ShadeOf(outer: char, inner: char): Shade {
    if inner == outer then Bright else if inner == ' ' then VeryDark else Dark
  }

  /** The colour key's palette: green shades under an outer `+`, red under an outer `-`. */
  function KeyBg(outerIsPlus: bool, shade: Shade): nat {
    match shade
    case Bright => if outerIsPlus then 28 else 161
    case Dark => if outerIsPlus then 22 else 88
    case VeryDark => if outerIsPlus then 23 else 52
  }

  /** With colour on, a line is written in one foreground colour exactly when it is header-like. */
  lemma ForegroundExactlyForHeaders(line: string)
    ensures ClassifyPatchLine(line, true).Foreground? <==> IsHeaderLike(line)
  {
    if StartsWith(line, "----") {
      assert line[..3] == line[..4][..3];
    }
    if StartsWith(line, "++++") {
      assert line[..3] == line[..4][..3];
    }
  }

  /** A foreground colour follows the first character: red for `-`, green for `+`, cyan for `@`. */
  lemma ForegroundFollowsFirstChar(line: string)
    requires ClassifyPatchLine(line, true).Foreground?
    ensures line != []
    ensures ClassifyPatchLine(line, true).fg == if line[0] == '-' then Red else if line[0] == '+' then Green else Cyan
    ensures line[0] == '-' || line[0] == '+' || line[0] == '@'
  {
  }

  /**
   * The six-way table: a nested line that is not header-like gets bold exactly
   * for a doubled marker, each marker's own background, and the colour key's
   * background for the rest.
   */
  lemma NestedFollowsKey(line: string)
    requires |line| >= 2 && (line[0] == '+' || line[0] == '-') && !IsHeaderLike(line)
    ensures ClassifyPatchLine(line, true)
            == Nested(line[1] == line[0], MarkerBg(line[0]), MarkerBg(line[1]),
                      KeyBg(line[0] == '+', ShadeOf(line[0], line[1])))
  {
    assert line[..2] == [line[0], line[1]];
  }

  /**
   * A line is written plain exactly when colour is off, or it is not
   * header-like and is shorter than two characters or does not start with a marker.
   */
  lemma PlainIff(line: string, useColor: bool)
    ensures ClassifyPatchLine(line, useColor) == Plain <==>
            !useColor || (!IsHeaderLike(line) && (|line| < 2 || (line[0] != '+' && line[0] != '-')))
  {
    if useColor {
      ForegroundExactlyForHeaders(line);
    }
  }

  /**
   * The `stat` colours agree with the `patch` colours: a header-like line has
   * the same colour in both, and a nested line's stat colour is the hue of its background.
   */
  lemma StatAgreesWithPatch(line: string)
    ensures ClassifyPatchLine(line, true).Foreground? ==> StatStyle(line, true) == ClassifyPatchLine(line, true)
    ensures ClassifyPatchLine(line, true).Nested? ==>
              StatStyle(line, true)
              == Foreground(if ClassifyPatchLine(line, true).restBg in {BrightGreen, DarkGreen, VeryDarkGreen} then Green else Red)
  {
    if ClassifyPatchLine(line, true).Foreground? {
      ForegroundFollowsFirstChar(line);
      assert line[..1] == [line[0]];
    }
    if ClassifyPatchLine(line, true).Nested? {
      assert line[..1] == [line[0]];
    }
  }

  /** The six swatches of the colour key (`swatches`), each classified with the codes it shows. */
  lemma SwatchesMatchClassifier(rest: string)
    requires rest == [] || (rest[0] != '+' && rest[0] != '-')
    ensures ClassifyPatchLine("++" + rest, true) == Nested(true, 28, 28, 28)
    ensures ClassifyPatchLine("--" + rest, true) == Nested(true, 161, 161, 161)
    ensures ClassifyPatchLine("+ " + rest, true) == Nested(false, 28, 0, 23)
    ensures ClassifyPatchLine("- " + rest, true) == Nested(false, 161, 0, 52)
    ensures ClassifyPatchLine("+-" + rest, true) == Nested(false, 28, 161, 22)
    ensures ClassifyPatchLine("-+" + rest, true) == Nested(false, 161, 28, 88)
  {
    SwatchIsKeyed('+', '+', rest);
    SwatchIsKeyed('-', '-', rest);
    SwatchIsKeyed('+', ' ', rest);
    SwatchIsKeyed('-', ' ', rest);
    SwatchIsKeyed('+', '-', rest);
    SwatchIsKeyed('-', '+', rest);
  }

  /** A swatch line (two markers, then text not starting with a marker) is classified by the key. */
  lemma SwatchIsKeyed(outer: char, inner: char, rest: string)
    requires outer == '+' || outer == '-'
    requires inner == '+' || inner == '-' || inner == ' '
    requires rest == [] || (rest[0] != '+' && rest[0] != '-')
    ensures ClassifyPatchLine([outer, inner] + rest, true)
            == Nested(inner == outer, MarkerBg(outer), MarkerBg(inner), KeyBg(outer == '+', ShadeOf(outer, inner)))
  {
    var line := [outer, inner] + rest;
    assert line[0] == outer && line[1] == inner;
    assert |line| > 2 ==> line[2] == rest[0];
    NestedFollowsKey(line);
  }

  /**
   * The header rules come first, so a nested line whose markers are `--` and
   * whose text starts with `-` is drawn as the outer `---` header, in red
   * foreground, while the same markers before any other text give the bold
   * red of the `--` combination.
   */
  lemma HeaderRulesShadowNestedLines(rest: string)
    requires rest == [] || rest[0] != '-'
    ensures ClassifyPatchLine("---" + rest, true) == Foreground(Red)
    ensures ClassifyPatchLine("--" + rest, true) == Nested(true, BrightRed, BrightRed, BrightRed)
  {
    var header, nested := "---" + rest, "--" + rest;
    assert header[..3] == "---";
    assert |header| >= 4 ==> header[3] == rest[0];
    assert nested[..2] == "--" && nested[0] == '-' && nested[1] == '-';
    assert |nested| >= 3 ==> nested[2] == rest[0];
    assert !IsHeaderLike(nested);
    NestedFollowsKey(nested);
  }
}
