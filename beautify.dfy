/** The Fragmentarium `.frag` beautifier: newline normalisation, per-line
    brace statistics, the re-indentation state machine and the blank-line
    collapse. Indentation is two spaces per level. */
module Beautify {
  import opened Text
  import opened Scanner

  /** One indentation unit (`INDENT`). */
  const Indent: string := "  "

  // ---------------------------------------------------------------------
  // normalize_newlines

  /** `\r\n` becomes `\n`, then every remaining `\r` becomes `\n`. */
  function NormalizeNewlines(text: string): string {
    ReplaceAll(ReplaceAll(text, "\r\n", "\n"), "\r", "\n")
  }

  /** No carriage return survives normalisation. */
  lemma NormalizeNewlinesRemovesCR(text: string)
    ensures '\r' !in NormalizeNewlines(text)
  {
    ReplaceAllRemoves(ReplaceAll(text, "\r\n", "\n"), '\r', "\n");
  }

  /** Text without carriage returns is returned unchanged. */
  lemma NormalizeNewlinesKeepsUnixText(text: string)
    requires '\r' !in text
    ensures NormalizeNewlines(text) == text
  {
    ReplaceAllAbsent(text, "\r\n", "\n");
    ReplaceAllAbsent(text, "\r", "\n");
  }

  // ---------------------------------------------------------------------
  // line_brace_stats

  /** The number of leading occurrences of `c` in `s`. */
  function LeadingRun(s: string, c: char): (n: nat)
    ensures n <= |s|
    ensures forall j :: 0 <= j < n ==> s[j] == c
    ensures n < |s| ==> s[n] != c
  {
    if s != [] && s[0] == c then 1 + LeadingRun(s[1..], c) else 0
  }

  /** The three properties of `LeadingRun` determine it. */
  lemma LeadingRunUnique(s: string, c: char, n: nat)
    requires n <= |s| && (forall j :: 0 <= j < n ==> s[j] == c) && (n < |s| ==> s[n] != c)
    ensures n == LeadingRun(s, c)
  {
  }

  lemma {:induction false} LeadingRunCounted(s: string, c: char)
    ensures LeadingRun(s, c) <= CountChar(s, c)
  {
    if s != [] && s[0] == c {
      LeadingRunCounted(s[1..], c);
    }
  }

  /** What one code line does to the indentation: its net brace delta, the
      number of `}` it starts with, and the block-comment flag after it. */
  datatype BraceStats = BraceStats(delta: int, leadingClose: nat, inBlockComment: bool)

  function LineStats(line: string, inBlockComment: bool): BraceStats {
    var p := Scan(line, inBlockComment);
    BraceStats(CountChar(p.code, '{') - CountChar(p.code, '}'), LeadingRun(LStrip(p.code), '}'), p.inBlockComment)
  }

  /** The leading `}` of a line are among the `}` its projection counts. */
  lemma LeadingCloseBounded(line: string, inBlockComment: bool)
    ensures LineStats(line, inBlockComment).leadingClose <= CountChar(Scan(line, inBlockComment).code, '}')
  {
    var code := Scan(line, inBlockComment).code;
    var stripped := LStrip(code);
    LeadingRunCounted(stripped, '}');
    CountCharSuffix(code, |code| - |stripped|, '}');
  }

  /** The counting loop of `line_brace_stats` over the stripped projection. */
  method CountLeading(s: string, c: char) returns (n: nat)
    ensures n == LeadingRun(s, c)
  {
    n := 0;
    for i := 0 to |s|
      invariant n == i
      invariant forall j :: 0 <= j < i ==> s[j] == c
    {
      if s[i] == c {
        n := n + 1;
        continue;
      }
      break;
    }
    LeadingRunUnique(s, c, n);
  }

  /** `line_brace_stats`: the scanner's projection, the run of `}` that
      opens it once left-stripped, and the count of `{` minus the count of
      `}` in it. */
  method LineBraceStats(line: string, inBlockComment: bool) returns (delta: int, leadingClose: nat, nextInBlockComment: bool)
    ensures BraceStats(delta, leadingClose, nextInBlockComment) == LineStats(line, inBlockComment)
  {
    var code, next := StripCommentsForBraces(line, inBlockComment);
    leadingClose := CountLeading(LStrip(code), '}');
    delta := CountChar(code, '{') - CountChar(code, '}');
    nextInBlockComment := next;
  }

  // ---------------------------------------------------------------------
  // collapse_blank_lines

  /** The collapse loop: `acc` is the output so far and `lastBlank` whether
      the last kept entry was blank (the start of the text counts as blank). */
  function CollapseFrom(lines: seq<string>, i: nat, acc: seq<string>, lastBlank: bool): seq<string>
    requires i <= |lines|
    decreases |lines| - i
  {
    if i == |lines| then acc
    else if lines[i] == "" then
      if lastBlank then CollapseFrom(lines, i + 1, acc, true)
      else CollapseFrom(lines, i + 1, acc + [""], true)
    else CollapseFrom(lines, i + 1, acc + [lines[i]], false)
  }

  function DropTrailingBlanks(xs: seq<string>): seq<string> {
    if xs != [] && xs[|xs| - 1] == "" then DropTrailingBlanks(xs[..|xs| - 1]) else xs
  }

  /** The result of `collapse_blank_lines`. */
  function Collapsed(lines: seq<string>): seq<string> {
    DropTrailingBlanks(CollapseFrom(lines, 0, [], true))
  }

  predicate NoAdjacentBlanks(xs: seq<string>) {
    forall k :: 0 <= k < |xs| - 1 ==> xs[k] != "" || xs[k + 1] != ""
  }

  /** The shape the collapse loop keeps: no adjacent blanks, no leading
      blank, and `lastBlank` tells whether the output ends blank. */
  predicate CollapseInvariant(acc: seq<string>, lastBlank: bool) {
    NoAdjacentBlanks(acc) && (acc == [] || acc[0] != "")
    && (lastBlank <==> (acc == [] || acc[|acc| - 1] == ""))
  }

  /** Appending a line keeps the shape unless it is a blank after a blank. */
  lemma AppendKeepsShape(acc: seq<string>, lastBlank: bool, x: string)
    requires CollapseInvariant(acc, lastBlank) && (x != "" || !lastBlank)
    ensures CollapseInvariant(acc + [x], x == "")
  {
    var r := acc + [x];
    forall k | 0 <= k < |r| - 1 ensures r[k] != "" || r[k + 1] != "" {
      if k + 1 < |acc| {
        assert r[k] == acc[k] && r[k + 1] == acc[k + 1];
      }
    }
  }

  /** The collapse loop never outputs two adjacent blanks or a leading blank. */
  lemma {:induction false} CollapseFromShape(lines: seq<string>, i: nat, acc: seq<string>, lastBlank: bool)
    requires i <= |lines| && CollapseInvariant(acc, lastBlank)
    ensures var r := CollapseFrom(lines, i, acc, lastBlank);
      NoAdjacentBlanks(r) && (r == [] || r[0] != "")
    decreases |lines| - i
  {
    if i < |lines| {
      var x := lines[i];
      if x == "" && lastBlank {
        CollapseFromShape(lines, i + 1, acc, true);
      } else {
        AppendKeepsShape(acc, lastBlank, x);
        CollapseFromShape(lines, i + 1, acc + [x], x == "");
      }
    }
  }

  /** The non-blank entries of the collapse loop's output are exactly those
      it has kept and those it reads. */
  lemma {:induction false} CollapseFromNonBlank(lines: seq<string>, i: nat, acc: seq<string>, lastBlank: bool)
    requires i <= |lines|
    ensures NonBlank(CollapseFrom(lines, i, acc, lastBlank)) == NonBlank(acc) + NonBlank(lines[i..])
    decreases |lines| - i
  {
    if i == |lines| {
      assert NonBlank(lines[i..]) == [];
      assert NonBlank(acc) + [] == NonBlank(acc);
    } else {
      var x := lines[i];
      var rest := NonBlank(lines[i + 1..]);
      assert lines[i..] == [x] + lines[i + 1..];
      NonBlankAppend([x], lines[i + 1..]);
      if x == "" && lastBlank {
        assert NonBlank([x]) == [];
        CollapseFromNonBlank(lines, i + 1, acc, true);
        assert NonBlank(lines[i..]) == rest;
      } else {
        NonBlankAppend(acc, [x]);
        CollapseFromNonBlank(lines, i + 1, acc + [x], x == "");
        assert NonBlank(acc) + NonBlank([x]) + rest == NonBlank(acc) + (NonBlank([x]) + rest);
      }
    }
  }

  lemma {:induction false} DropTrailingBlanksShape(xs: seq<string>)
    requires NoAdjacentBlanks(xs) && (xs == [] || xs[0] != "")
    ensures var r := DropTrailingBlanks(xs);
      NoAdjacentBlanks(r) && (r == [] || (r[0] != "" && r[|r| - 1] != "")) && NonBlank(r) == NonBlank(xs)
    decreases |xs|
  {
    if xs != [] && xs[|xs| - 1] == "" {
      var init := xs[..|xs| - 1];
      DropTrailingBlanksShape(init);
      assert xs == init + [""];
      NonBlankAppend(init, [""]);
      assert NonBlank([""]) == [];
      assert NonBlank(init) + [] == NonBlank(init);
    }
  }

  /** `collapse_blank_lines` leaves no two adjacent blank lines, neither
      starts nor ends with a blank line, and keeps the non-blank lines
      exactly, in order. */
  lemma CollapsedShape(lines: seq<string>)
    ensures var r := Collapsed(lines);
      NoAdjacentBlanks(r) && (r == [] || (r[0] != "" && r[|r| - 1] != "")) && NonBlank(r) == NonBlank(lines)
  {
    CollapseFromShape(lines, 0, [], true);
    CollapseFromNonBlank(lines, 0, [], true);
    assert lines[0..] == lines;
    assert NonBlank([]) + NonBlank(lines) == NonBlank(lines);
    DropTrailingBlanksShape(CollapseFrom(lines, 0, [], true));
  }

  /** A run of one or more blank lines. */
  predicate BlankRun(bs: seq<string>) {
    bs != [] && forall j :: 0 <= j < |bs| ==> bs[j] == ""
  }

  /** The collapse loop only appends to what it has kept. */
  lemma {:induction false} CollapseFromAcc(lines: seq<string>, i: nat, acc: seq<string>, lastBlank: bool)
    requires i <= |lines|
    ensures CollapseFrom(lines, i, acc, lastBlank) == acc + CollapseFrom(lines, i, [], lastBlank)
    decreases |lines| - i
  {
    if i == |lines| {
      assert acc + [] == acc;
    } else if lines[i] == "" && lastBlank {
      CollapseFromAcc(lines, i + 1, acc, true);
    } else {
      var x := lines[i];
      CollapseFromAcc(lines, i + 1, acc + [x], x == "");
      CollapseFromAcc(lines, i + 1, [x], x == "");
      assert acc + [x] + CollapseFrom(lines, i + 1, [], x == "") == acc + ([x] + CollapseFrom(lines, i + 1, [], x == ""));
      assert [] + [x] == [x];
    }
  }

  /** Lines in front of the scan position are never looked at again. */
  lemma {:induction false} CollapseFromShift(p: seq<string>, lines: seq<string>, i: nat, acc: seq<string>, lastBlank: bool)
    requires i <= |lines|
    ensures CollapseFrom(p + lines, |p| + i, acc, lastBlank) == CollapseFrom(lines, i, acc, lastBlank)
    decreases |lines| - i
  {
    if i < |lines| {
      assert (p + lines)[|p| + i] == lines[i];
      var x := lines[i];
      CollapseFromShift(p, lines, i + 1, if x == "" && lastBlank then acc else acc + [x], x == "");
    }
  }

  /** Whether the last kept entry is blank once `lines[i..]` has been read:
      the last line read decides, or nothing was read. */
  function LastBlankAfter(lines: seq<string>, i: nat, lastBlank: bool): bool {
    if i >= |lines| then lastBlank else lines[|lines| - 1] == ""
  }

  /** Reading `xs + ys` is reading `xs`, then `ys` from the state it left. */
  lemma {:induction false} CollapseFromAppend(xs: seq<string>, ys: seq<string>, i: nat, acc: seq<string>, lastBlank: bool)
    requires i <= |xs|
    ensures CollapseFrom(xs + ys, i, acc, lastBlank)
         == CollapseFrom(ys, 0, CollapseFrom(xs, i, acc, lastBlank), LastBlankAfter(xs, i, lastBlank))
    decreases |xs| - i
  {
    if i == |xs| {
      CollapseFromShift(xs, ys, 0, acc, lastBlank);
    } else {
      assert (xs + ys)[i] == xs[i];
      var x := xs[i];
      CollapseFromAppend(xs, ys, i + 1, if x == "" && lastBlank then acc else acc + [x], x == "");
    }
  }

  /** Blank lines ahead of the scan, read after a blank, are skipped. */
  lemma {:induction false} CollapseFromSkipsBlanks(lines: seq<string>, i: nat, j: nat, acc: seq<string>)
    requires i <= j <= |lines|
    requires forall k :: i <= k < j ==> lines[k] == ""
    ensures CollapseFrom(lines, i, acc, true) == CollapseFrom(lines, j, acc, true)
    decreases j - i
  {
    if i < j {
      CollapseFromSkipsBlanks(lines, i + 1, j, acc);
    }
  }

  /** Reading only blank lines adds at most trailing blanks. */
  lemma {:induction false} CollapseFromBlanks(bs: seq<string>, i: nat, acc: seq<string>, lastBlank: bool)
    requires i <= |bs| && forall j :: 0 <= j < |bs| ==> bs[j] == ""
    ensures DropTrailingBlanks(CollapseFrom(bs, i, acc, lastBlank)) == DropTrailingBlanks(acc)
    decreases |bs| - i
  {
    if i < |bs| {
      if lastBlank {
        CollapseFromBlanks(bs, i + 1, acc, true);
      } else {
        CollapseFromBlanks(bs, i + 1, acc + [""], true);
        assert (acc + [""])[..|acc|] == acc;
      }
    }
  }

  /** Trailing blanks are dropped only from the end. */
  lemma {:induction false} DropTrailingBlanksAppend(x: seq<string>, y: seq<string>)
    requires y != [] && y[0] != ""
    ensures DropTrailingBlanks(x + y) == x + DropTrailingBlanks(y)
    decreases |y|
  {
    if y[|y| - 1] == "" {
      var y' := y[..|y| - 1];
      assert (x + y)[..|x + y| - 1] == x + y';
      DropTrailingBlanksAppend(x, y');
    }
  }

  /** The collapse loop's output for lines that start with a statement
      starts with that statement. */
  lemma CollapseFromStatement(b: seq<string>)
    requires b != [] && b[0] != ""
    ensures var r := CollapseFrom(b, 0, [], true); r != [] && r[0] == b[0]
    ensures CollapseFrom(b, 0, [], false) == CollapseFrom(b, 0, [], true)
  {
    assert [] + [b[0]] == [b[0]];
    assert CollapseFrom(b, 0, [], true) == CollapseFrom(b, 1, [b[0]], false);
    CollapseFromAcc(b, 1, [b[0]], false);
  }

  /** Text ending in a statement collapses to the loop's output unchanged. */
  lemma CollapsedEndsWithStatement(a: seq<string>)
    requires a != [] && a[|a| - 1] != ""
    ensures Collapsed(a) == CollapseFrom(a, 0, [], true)
  {
    var init := a[..|a| - 1];
    var x := a[|a| - 1];
    assert a == init + [x];
    CollapseFromAppend(init, [x], 0, [], true);
    var c := CollapseFrom(init, 0, [], true);
    assert CollapseFrom([x], 1, c + [x], false) == c + [x];
  }

  /** Leading blank lines vanish. */
  lemma CollapsedDropsLeadingBlanks(bs: seq<string>, b: seq<string>)
    requires BlankRun(bs)
    ensures Collapsed(bs + b) == Collapsed(b)
  {
    CollapseFromSkipsBlanks(bs + b, 0, |bs|, []);
    CollapseFromShift(bs, b, 0, [], true);
  }

  /** Trailing blank lines vanish. */
  lemma CollapsedDropsTrailingBlanks(a: seq<string>, bs: seq<string>)
    requires BlankRun(bs)
    ensures Collapsed(a + bs) == Collapsed(a)
  {
    CollapseFromAppend(a, bs, 0, [], true);
    CollapseFromBlanks(bs, 0, CollapseFrom(a, 0, [], true), LastBlankAfter(a, 0, true));
  }

  /** Two pieces that meet statement to statement collapse separately. */
  lemma CollapsedJoins(a: seq<string>, b: seq<string>)
    requires a != [] && a[|a| - 1] != "" && b != [] && b[0] != ""
    ensures Collapsed(a + b) == Collapsed(a) + Collapsed(b)
  {
    var ca := CollapseFrom(a, 0, [], true);
    CollapseFromAppend(a, b, 0, [], true);
    CollapseFromAcc(b, 0, ca, false);
    CollapseFromStatement(b);
    DropTrailingBlanksAppend(ca, CollapseFrom(b, 0, [], true));
    CollapsedEndsWithStatement(a);
  }

  /** A run of blank lines between two statements, however long, is kept
      as exactly one blank line. */
  lemma CollapsedKeepsOneBlank(a: seq<string>, bs: seq<string>, b: seq<string>)
    requires a != [] && a[|a| - 1] != "" && BlankRun(bs) && b != [] && b[0] != ""
    ensures Collapsed(a + (bs + b)) == Collapsed(a) + [""] + Collapsed(b)
  {
    var ca := CollapseFrom(a, 0, [], true);
    var cb := CollapseFrom(b, 0, [], true);
    CollapseFromAppend(a, bs + b, 0, [], true);
    assert (bs + b)[0] == "";
    CollapseFromSkipsBlanks(bs + b, 1, |bs|, ca + [""]);
    CollapseFromShift(bs, b, 0, ca + [""], true);
    CollapseFromAcc(b, 0, ca + [""], true);
    CollapseFromStatement(b);
    DropTrailingBlanksAppend(ca + [""], cb);
    CollapsedEndsWithStatement(a);
  }

  /** A single statement collapses to itself. */
  lemma CollapsedStatement(x: string)
    requires x != ""
    ensures Collapsed([x]) == [x]
  {
    assert CollapseFrom([x], 0, [], true) == CollapseFrom([x], 1, [x], false);
  }

  /** `collapse_blank_lines`, with its append loop and its trailing `pop` loop. */
  method CollapseBlankLines(lines: seq<string>) returns (out: seq<string>)
    ensures out == Collapsed(lines)
    ensures NoAdjacentBlanks(out) && NonBlank(out) == NonBlank(lines)
    ensures out == [] || (out[0] != "" && out[|out| - 1] != "")
  {
    out := [];
    var lastBlank := true;
    for i := 0 to |lines|
      invariant CollapseFrom(lines, i, out, lastBlank) == CollapseFrom(lines, 0, [], true)
    {
      var raw := lines[i];
      if raw == "" {
        if lastBlank {
          continue;
        }
        out := out + [""];
        lastBlank := true;
        continue;
      }
      out := out + [raw];
      lastBlank := false;
    }
    while out != [] && out[|out| - 1] == ""
      invariant DropTrailingBlanks(out) == Collapsed(lines)
    {
      out := out[..|out| - 1];
    }
    CollapsedShape(lines);
  }

  // ---------------------------------------------------------------------
  // format_frag_text

  /** The state threaded from line to line. */
  datatype FormatState = FormatState(indentLevel: nat, inPreset: bool, inBlockComment: bool)

  /** The line emitted for one input line and the state after it. */
  datatype Emitted = Emitted(state: FormatState, text: string)

  const Start := FormatState(0, false, false)

  /** `INDENT * n`: `n` indentation units, so `2 * n` spaces. */
  function Indentation(n: nat): (r: string)
    ensures |r| == 2 * n
    ensures forall j :: 0 <= j < |r| ==> r[j] == ' '
  {
    if n == 0 then "" else Indent + Indentation(n - 1)
  }

  function Max0(x: int): nat {
    if x > 0 then x else 0
  }

  /** A line whose stripped form starts with `#`. */
  predicate IsDirective(stripped: string) {
    stripped != [] && stripped[0] == '#'
  }

  /** A directive line is emitted stripped; `#preset ` (any case) sets the
      preset flag, `#endpreset` clears it, and nothing else changes. */
  function DirectiveLine(st: FormatState, stripped: string): Emitted {
    var lower := Lower(stripped);
    var inPreset :=
      if StartsWith(lower, "#preset ") then true
      else if lower == "#endpreset" then false
      else st.inPreset;
    Emitted(st.(inPreset := inPreset), stripped)
  }

  /** A code line whose left-stripped text is `text` and whose brace
      statistics are `stats`: it is indented by the level less its leading
      `}`, clamped at zero, and moves the level by its brace delta, clamped
      at zero. */
  function CodeLine(st: FormatState, text: string, stats: BraceStats): Emitted {
    var effective := Max0(st.indentLevel - stats.leadingClose);
    Emitted(FormatState(Max0(st.indentLevel + stats.delta), st.inPreset, stats.inBlockComment),
            Indentation(effective) + text)
  }

  /** One iteration of the loop of `format_frag_text`: the line is first
      stripped of trailing blanks and tabs; blank lines are emitted empty,
      directive lines as `DirectiveLine` says, lines inside a preset lose
      their leading whitespace and change nothing, and code lines go
      through `CodeLine`. */
  function FormatLine(st: FormatState, original: string): Emitted {
    var line := TrimEnd(original, SpaceOrTab);
    var stripped := Strip(line);
    if stripped == "" then Emitted(st, "")
    else if IsDirective(stripped) then DirectiveLine(st, stripped)
    else if st.inPreset then Emitted(st, LStrip(line))
    else CodeLine(st, LStrip(line), LineStats(line, st.inBlockComment))
  }

  /** A blank line is emitted empty and changes nothing. */
  lemma BlankLineKeepsState(st: FormatState, original: string)
    requires Strip(TrimEnd(original, SpaceOrTab)) == ""
    ensures FormatLine(st, original) == Emitted(st, "")
  {
  }

  /** A directive line is emitted stripped, so with no indentation, and
      leaves the indentation level and the block-comment flag alone. */
  lemma DirectiveLineUnindented(st: FormatState, original: string)
    requires IsDirective(Strip(TrimEnd(original, SpaceOrTab)))
    ensures var r := FormatLine(st, original);
      && r.text == Strip(TrimEnd(original, SpaceOrTab)) && r.text[0] == '#'
      && r.state.indentLevel == st.indentLevel
      && r.state.inBlockComment == st.inBlockComment
  {
    assert FormatLine(st, original) == DirectiveLine(st, Strip(TrimEnd(original, SpaceOrTab)));
  }

  /** `#preset ` (in any case) opens a preset block, `#endpreset` closes
      one, and any other directive leaves the state as it is. */
  lemma PresetDirectives(st: FormatState, stripped: string)
    ensures var r := DirectiveLine(st, stripped); var lower := Lower(stripped);
      && (StartsWith(lower, "#preset ") ==> r.state == st.(inPreset := true))
      && (lower == "#endpreset" ==> r.state == st.(inPreset := false))
      && (!StartsWith(lower, "#preset ") && lower != "#endpreset" ==> r.state == st)
  {
    var lower := Lower(stripped);
    if lower == "#endpreset" {
      assert !StartsWith(lower, "#preset ") by {
        assert lower[1] == 'e';
      }
    }
  }

  /** `#endpreset` outside a preset block is a no-op. */
  lemma StrayEndPresetIsNoOp(st: FormatState, original: string)
    requires !st.inPreset
    requires Lower(Strip(TrimEnd(original, SpaceOrTab))) == "#endpreset"
    ensures FormatLine(st, original).state == st
  {
    var stripped := Strip(TrimEnd(original, SpaceOrTab));
    assert stripped[0] == '#' by {
      assert Lower(stripped)[0] == '#';
    }
    assert FormatLine(st, original) == DirectiveLine(st, stripped);
    PresetDirectives(st, stripped);
  }

  /** Inside a preset block a non-directive line loses only its leading
      whitespace and changes nothing, whatever braces it holds. */
  lemma PresetLinePassesThrough(st: FormatState, original: string)
    requires st.inPreset
    requires var stripped := Strip(TrimEnd(original, SpaceOrTab)); stripped != "" && !IsDirective(stripped)
    ensures FormatLine(st, original) == Emitted(st, LStrip(TrimEnd(original, SpaceOrTab)))
  {
  }

  /** Outside a preset block, a line that is neither blank nor a directive
      is a code line, measured by the brace statistics of its right-trimmed
      form. */
  lemma CodeLineDispatch(st: FormatState, original: string)
    requires !st.inPreset
    requires var stripped := Strip(TrimEnd(original, SpaceOrTab)); stripped != "" && !IsDirective(stripped)
    ensures var line := TrimEnd(original, SpaceOrTab);
      FormatLine(st, original) == CodeLine(st, LStrip(line), LineStats(line, st.inBlockComment))
  {
  }

  /** A code line is indented by the level less its leading `}`, never
      below zero and never above the level, and keeps its text after the
      indentation; the level then moves by the line's brace delta, clamped
      at zero, and the block-comment flag is the scanner's. */
  lemma CodeLineIndent(st: FormatState, text: string, stats: BraceStats)
    ensures var r := CodeLine(st, text, stats);
      var k := Max0(st.indentLevel - stats.leadingClose);
      && k <= st.indentLevel
      && |r.text| == 2 * k + |text|
      && r.text[2 * k..] == text
      && (forall j :: 0 <= j < 2 * k ==> r.text[j] == ' ')
      && r.state == FormatState(Max0(st.indentLevel + stats.delta), st.inPreset, stats.inBlockComment)
  {
  }

  /** The closing line of a block is aligned with the line that opened it:
      after a code line that opens one brace and starts with none, a code
      line that starts with one `}` gets the same indentation. */
  lemma CloseAlignsWithOpen(st: FormatState, openText: string, open: BraceStats, closeText: string, close: BraceStats)
    requires open.delta == 1 && open.leadingClose == 0 && close.leadingClose == 1
    ensures var first := CodeLine(st, openText, open);
      var second := CodeLine(first.state, closeText, close);
      && first.text == Indentation(st.indentLevel) + openText
      && second.text == Indentation(st.indentLevel) + closeText
  {
  }

  /** A line that both closes and reopens a block (`} else {`) is dedented
      by one level and leaves the level as it was. */
  lemma ReopenDedentsOnce(st: FormatState, text: string, stats: BraceStats)
    requires st.indentLevel >= 1 && stats.delta == 0 && stats.leadingClose == 1
    ensures var r := CodeLine(st, text, stats);
      r.text == Indentation(st.indentLevel - 1) + text && r.state.indentLevel == st.indentLevel
  {
  }

  /** A line of plain code, read outside a block comment, is measured on
      its own text. */
  lemma PlainLineStats(line: string)
    requires PlainCode(line)
    ensures LineStats(line, false)
         == BraceStats(CountChar(line, '{') - CountChar(line, '}'), LeadingRun(LStrip(line), '}'), false)
  {
    assert line[0..|line|] == line;
    CopiesPlainCode(line, 0, |line|, []);
    assert [] + line == line;
  }

  /** A line with no whitespace at either end that is not a directive. */
  predicate TrimmedCode(line: string) {
    line != [] && !IsSpace(line[0]) && !IsSpace(line[|line| - 1]) && line[0] != '#'
  }

  /** Outside a preset block, such a line is formatted as a code line on its
      own text. */
  lemma TrimmedCodeLine(st: FormatState, line: string)
    requires !st.inPreset && TrimmedCode(line)
    ensures FormatLine(st, line) == CodeLine(st, line, LineStats(line, st.inBlockComment))
  {
    TrimEndKeeps(line, SpaceOrTab);
    TrimStartKeeps(line, Whitespace);
    TrimEndKeeps(line, Whitespace);
  }

  /** The brace statistics of a trimmed plain line with at most one `}`,
      read outside a block comment. */
  lemma PlainBraceStats(line: string, opens: nat, closes: nat)
    requires TrimmedCode(line) && PlainCode(line)
    requires CountChar(line, '{') == opens && CountChar(line, '}') == closes && closes <= 1
    requires closes == 1 <==> line[0] == '}'
    ensures LineStats(line, false) == BraceStats(opens - closes, closes, false)
  {
    PlainLineStats(line);
    LeadingCloseOfTrimmed(line, closes);
  }

  /** A line that starts with no whitespace starts with its only `}`, if
      it has one and begins with it, and with none otherwise. */
  lemma LeadingCloseOfTrimmed(line: string, closes: nat)
    requires TrimmedCode(line) && CountChar(line, '}') == closes && closes <= 1
    requires closes == 1 <==> line[0] == '}'
    ensures LeadingRun(LStrip(line), '}') == closes
  {
    TrimStartKeeps(line, Whitespace);
    LeadingRunCounted(line, '}');
    if line[0] == '}' {
      assert LeadingRun(line, '}') >= 1;
    }
  }

  /** A plain line that opens one block (`x {`) followed by a plain line
      that closes it (`}`): the closing line is aligned with the opening one
      and the state is back where it was. */
  lemma BlockLinesAlign(st: FormatState, open: string, close: string)
    requires !st.inPreset && !st.inBlockComment
    requires TrimmedCode(open) && PlainCode(open) && CountChar(open, '{') == 1 && CountChar(open, '}') == 0
    requires TrimmedCode(close) && PlainCode(close) && close[0] == '}'
    requires CountChar(close, '{') == 0 && CountChar(close, '}') == 1
    ensures var first := FormatLine(st, open);
      var second := FormatLine(first.state, close);
      && first.text == Indentation(st.indentLevel) + open
      && second.text == Indentation(st.indentLevel) + close
      && second.state == st
  {
    PlainBraceStats(open, 1, 0);
    TrimmedCodeLine(st, open);
    var first := CodeLine(st, open, BraceStats(1, 0, false));
    PlainBraceStats(close, 0, 1);
    TrimmedCodeLine(first.state, close);
    CloseAlignsWithOpen(st, open, BraceStats(1, 0, false), close, BraceStats(-1, 1, false));
  }

  /** A plain line that closes one block and opens another (`} else {`) is
      dedented by one level and leaves the state alone. */
  lemma ElseLineDedents(st: FormatState, line: string)
    requires !st.inPreset && !st.inBlockComment && st.indentLevel >= 1
    requires TrimmedCode(line) && PlainCode(line) && line[0] == '}'
    requires CountChar(line, '{') == 1 && CountChar(line, '}') == 1
    ensures var r := FormatLine(st, line);
      r.text == Indentation(st.indentLevel - 1) + line && r.state == st
  {
    PlainBraceStats(line, 1, 1);
    TrimmedCodeLine(st, line);
    ReopenDedentsOnce(st, line, BraceStats(0, 1, false));
  }

  /** The state and the emitted lines after the loop has consumed `lines`. */
  datatype Run = Run(state: FormatState, out: seq<string>)

  function FormatLines(lines: seq<string>): Run
    decreases |lines|
  {
    if lines == [] then Run(Start, [])
    else
      var prev := FormatLines(lines[..|lines| - 1]);
      var e := FormatLine(prev.state, lines[|lines| - 1]);
      Run(e.state, prev.out + [e.text])
  }

  /** The end of `format_frag_text`: the emitted lines collapsed, joined by
      newlines and terminated by one. */
  function Finish(out: seq<string>): string {
    Join(Collapsed(out), '\n') + "\n"
  }

  /** The text `format_frag_text` returns. */
  function Formatted(text: string): string {
    Finish(FormatLines(Split(NormalizeNewlines(text), '\n')).out)
  }

  /** The text ends with exactly one newline. */
  predicate EndsWithOneNewline(r: string) {
    |r| >= 1 && r[|r| - 1] == '\n' && (|r| == 1 || r[|r| - 2] != '\n')
  }

  /** A formatted line holds no newline when its input line holds none. */
  lemma FormatLineNoNewline(st: FormatState, original: string)
    requires '\n' !in original
    ensures '\n' !in FormatLine(st, original).text
  {
    var line := TrimEnd(original, SpaceOrTab);
    var t := TrimStart(line, Whitespace);
    var stripped := Strip(line);
    assert '\n' !in line by {
      assert forall c :: c in line ==> c in original;
    }
    assert '\n' !in t by {
      assert forall c :: c in t ==> c in line;
    }
    assert '\n' !in stripped by {
      assert forall c :: c in stripped ==> c in t;
    }
  }

  lemma {:induction false} FormatLinesNoNewline(lines: seq<string>)
    requires NoneContains(lines, '\n')
    ensures |FormatLines(lines).out| == |lines|
    ensures NoneContains(FormatLines(lines).out, '\n')
    decreases |lines|
  {
    if lines != [] {
      var init := lines[..|lines| - 1];
      FormatLinesNoNewline(init);
      FormatLineNoNewline(FormatLines(init).state, lines[|lines| - 1]);
    }
  }

  lemma CollapsedNoNewline(xs: seq<string>)
    requires NoneContains(xs, '\n')
    ensures NoneContains(Collapsed(xs), '\n')
  {
    var r := Collapsed(xs);
    CollapsedShape(xs);
    forall k | 0 <= k < |r| ensures '\n' !in r[k] {
      if r[k] != "" {
        NonBlankMembers(r, r[k]);
        NonBlankMembers(xs, r[k]);
      }
    }
  }

  /** Collapsed, newline-free lines joined by newlines and terminated by
      one: the text ends with exactly one newline and splitting it back
      gives the lines. */
  lemma JoinedShape(c: seq<string>)
    requires NoneContains(c, '\n') && NoAdjacentBlanks(c) && (c == [] || (c[0] != "" && c[|c| - 1] != ""))
    ensures var r := Join(c, '\n') + "\n";
      && EndsWithOneNewline(r)
      && (r == "\n" || Split(r[..|r| - 1], '\n') == c)
  {
    var r := Join(c, '\n') + "\n";
    assert r[..|r| - 1] == Join(c, '\n');
    if c != [] {
      JoinLength(c, '\n');
      var last := c[|c| - 1];
      assert r[|r| - 2] == last[|last| - 1];
      SplitJoin(c, '\n');
    }
  }

  /** A finished text: it ends with exactly one newline, and the lines
      before it hold no two adjacent blank lines, neither the first nor the
      last of them blank. */
  predicate WellFinished(r: string) {
    && EndsWithOneNewline(r)
    && (r == "\n" || (var ls := Split(r[..|r| - 1], '\n'); NoAdjacentBlanks(ls) && ls[0] != "" && ls[|ls| - 1] != ""))
  }

  /** Finishing newline-free lines gives a well-finished text. */
  lemma FinishShape(out: seq<string>)
    requires NoneContains(out, '\n')
    ensures WellFinished(Finish(out))
  {
    CollapsedNoNewline(out);
    CollapsedShape(out);
    JoinedShape(Collapsed(out));
  }

  /** Every formatted text is well finished. */
  lemma FormattedShape(text: string)
    ensures WellFinished(Formatted(text))
  {
    var lines := Split(NormalizeNewlines(text), '\n');
    FormatLinesNoNewline(lines);
    var out := FormatLines(lines).out;
    assert Formatted(text) == Finish(out);
    FinishShape(out);
  }

  /** The body of the loop of `format_frag_text`, for one line. */
  method FormatLineStep(st: FormatState, original: string) returns (e: Emitted)
    ensures e == FormatLine(st, original)
  {
    var line := TrimEnd(original, SpaceOrTab);
    var stripped := Strip(line);
    if stripped == "" {
      return Emitted(st, "");
    }
    var lower := Lower(stripped);
    if stripped[0] == '#' {
      var inPreset := st.inPreset;
      if StartsWith(lower, "#preset ") {
        inPreset := true;
      } else if lower == "#endpreset" {
        inPreset := false;
      }
      e := Emitted(st.(inPreset := inPreset), stripped);
      assert e == DirectiveLine(st, stripped);
      return;
    }
    if st.inPreset {
      return Emitted(st, LStrip(line));
    }
    var delta, leadingClose, nextInBlockComment := LineBraceStats(line, st.inBlockComment);
    e := CodeLine(st, LStrip(line), BraceStats(delta, leadingClose, nextInBlockComment));
  }

  /** The loop of `format_frag_text`: one pass over the lines threading
      the indentation level, the preset flag and the block-comment flag. */
  method FormatAll(lines: seq<string>) returns (out: seq<string>)
    ensures out == FormatLines(lines).out
  {
    out := [];
    var st := Start;
    for i := 0 to |lines|
      invariant FormatLines(lines[..i]) == Run(st, out)
    {
      assert lines[..i + 1][..i] == lines[..i];
      var e := FormatLineStep(st, lines[i]);
      out := out + [e.text];
      st := e.state;
    }
    assert lines[..|lines|] == lines;
  }

  /** `format_frag_text`: the formatting loop, then the blank-line collapse
      and a single trailing newline. */
  method FormatFragText(text: string) returns (r: string)
    ensures r == Formatted(text)
    ensures WellFinished(r)
  {
    var normalized := NormalizeNewlines(text);
    var lines := Split(normalized, '\n');
    var out := FormatAll(lines);
    out := CollapseBlankLines(out);
    r := Join(out, '\n') + "\n";
    FormattedShape(text);
  }
}
