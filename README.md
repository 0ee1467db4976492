# Fragmentarium shader tooling, modelled in Dafny

This project models two Python scripts that work on Fragmentarium `.frag`
shader sources and proves properties of the model.

- **The beautifier** (`scripts/beautify_fragments.py`) re-indents a fragment line by line.
  - `normalize_newlines` turns `\r\n` and `\r` into `\n`.
  - `strip_comments_for_braces` scans a line character by character. It drops comments, keeps string literals and code, and carries an "inside a block comment" flag to the next line.
  - `line_brace_stats` counts the braces of that code-only projection.
  - `format_frag_text` threads the indentation level, the preset-block flag and the block-comment flag through the lines.
  - `collapse_blank_lines` removes leading and trailing blank lines and keeps exactly one blank line of each run between two statements. Because every list of lines is made of statements and runs of blanks, the lemmas `CollapsedStatement`, `CollapsedJoins`, `CollapsedKeepsOneBlank`, `CollapsedDropsLeadingBlanks` and `CollapsedDropsTrailingBlanks` together determine the result for every input.
- **The example porter** (`scripts/port_fragmentarium_3d.py`) rewrites legacy 3D examples.
  - The include-line regular expression becomes a hand-written matcher, proved equivalent to the shape the expression describes.
  - `normalize_include_name` looks an include up case-insensitively.
  - `is_3d_candidate` decides whether an example is 3D.
  - `find_header_insert_index` finds where lines are inserted after the header.
  - `transform_example_source` drops legacy renderer includes, adds a camera include and an orbit-trap declaration where needed, and finishes the text.
  - `make_system_id` derives a slugged, unique manifest id and records it in the set of used ids.

Modules, one concept each:

| module | file | what it holds |
|---|---|---|
| `Wrappers` | `wrappers.dfy` | `Option` |
| `Text` | `text.dfy` | Python string operations on ASCII text: `isspace`, `lower`, `strip`/`lstrip`/`rstrip`, `count`, `split`, `join`, `splitlines`, `replace`, and dropping the empty strings of a list |
| `Scanner` | `scanner.dfy` | `strip_comments_for_braces` as a step function, a method with its loop, and lemmas |
| `Beautify` | `beautify.dfy` | the rest of the beautifier |
| `Port` | `port.dfy` | the include matcher, `normalize_include_name`, `is_3d_candidate`, `find_header_insert_index` |
| `Transform` | `transform.dfy` | `transform_example_source`, phase by phase |
| `SystemId` | `system_id.dfy` | `make_system_id`, with the used ids as the field of a class |

How loops are modelled:

- Every loop that builds or updates state is a Dafny `method` with a loop, with one exception. The include-rewrite loop of `transform_example_source` decides each line's fate with `if`/`continue`, then appends the line to the kept or the removed list. In the model that decision is the function `Transform.Dispose`, applied to every line by the sequence comprehension `Transform.Dispositions`; only the appends are a loop, in the method `Transform.Distribute`.
- The two scans that only answer yes or no, in `is_3d_candidate` and the common-camera check, are recursive functions.
- Each such method is proved equal to a specification function.
- The properties are lemmas about those functions.
- `make_system_id` changes the caller's `used_ids` set. It is therefore a method of class `IdRegistry`, whose field `ids` it updates.

Regular expressions other than the include line's, and the `#camera 3D` search, are function-valued parameters:

- `Transform.Recognizers` holds the sampler-annotation, camera-uniform, orbit-trap-use and orbit-trap-declaration recognisers.
- `camera3D` is a parameter of `Port.IsThreeDCandidate`.

The model treats them as opaque. Properties that depend on them are stated under explicit hypotheses, such as `Transform.SamplerGroupNotInclude`.

One point of the beautifier's behaviour is easy to misread. The scanner's string-literal state starts afresh on every line: only the block-comment flag is carried from one line to the next. The characters of a literal, braces included, are copied into the projection, so a `{` inside a string literal counts towards the indentation.

## Model

| member | source | states |
|---|---|---|
| Beautify.NormalizeNewlinesRemovesCR | scripts/beautify_fragments.py:19-20 | no carriage return is left after newline normalisation |
| Beautify.NormalizeNewlinesKeepsUnixText | scripts/beautify_fragments.py:19-20 | text without a carriage return is returned unchanged |
| Scanner.StepAt | scripts/beautify_fragments.py:30-67 | one scanner step either stops or advances by at least one position inside the line, emitting nothing or exactly the current character |
| Scanner.ScanFromSubsequence | scripts/beautify_fragments.py:30-69 | whatever the scanner appends comes from the line in increasing position order, so the projection is a subsequence of the line |
| Scanner.SubsequenceNoLonger | scripts/beautify_fragments.py:30-69 | a subsequence, hence the projection, is never longer than the line |
| Scanner.StripCommentsForBraces | scripts/beautify_fragments.py:23-69 | the loop over the line returns exactly the projection and flag of the scanner function, and the projection is a subsequence of the line |
| Scanner.StaysInBlockComment | scripts/beautify_fragments.py:34-40 | inside a block comment with no `*/` ahead, nothing more is projected and the flag stays set |
| Scanner.UnclosedCommentLine | scripts/beautify_fragments.py:34-40 | a line entered inside a block comment and holding no `*/` projects to `""` with the flag still set |
| Scanner.SkipsToCommentEnd | scripts/beautify_fragments.py:34-38 | inside a block comment everything up to the first `*/` is dropped, and scanning resumes in code after it |
| Scanner.OpenCommentSetsFlag | scripts/beautify_fragments.py:61-64 | `/*` in code with no later `*/` drops the rest of the line and sets the flag |
| Scanner.CommentResumesCode | scripts/beautify_fragments.py:34-64 | a block comment opened and closed on the same line contributes nothing, and scanning continues in code on that line |
| Scanner.CopiesLiteralBody | scripts/beautify_fragments.py:42-51 | inside a literal every character is copied, braces and comment delimiters included, and a backslash escapes the next character |
| Scanner.CopiesQuotedLiteral | scripts/beautify_fragments.py:42-57 | a complete quoted literal in code is copied verbatim, quotes included, and only the matching unescaped quote closes it |
| Scanner.CopiesPlainCode | scripts/beautify_fragments.py:66-67 | code without quotes or slashes is copied unchanged |
| Scanner.LineCommentEndsScan | scripts/beautify_fragments.py:59-60 | a `//` after plain code ends the scan: nothing at or after it is projected, and the flag is returned unchanged |
| Scanner.LineCommentAnywhere | scripts/beautify_fragments.py:59-60 | a `//` met in code mode, wherever it stands, ends the scan: the projection is the code gathered so far and the flag is clear |
| Beautify.LeadingRun | scripts/beautify_fragments.py:75-80 | the count covers exactly the leading `}` characters and stops at the first other character |
| Beautify.LeadingRunUnique | scripts/beautify_fragments.py:75-80 | those properties determine the count uniquely |
| Beautify.LeadingRunCounted | scripts/beautify_fragments.py:75-81 | the leading run of a character is at most the number of its occurrences |
| Beautify.CountLeading | scripts/beautify_fragments.py:75-80 | the counting loop, which counts while the character is `}` and breaks at the first other one, computes the leading run |
| Beautify.LeadingCloseBounded | scripts/beautify_fragments.py:72-82 | `leading_close` is at most the number of `}` in the projection |
| Beautify.LineBraceStats | scripts/beautify_fragments.py:72-82 | `delta` is the projection's count of `{` minus its count of `}`; `leading_close` is the run of `}` after left-stripping; the flag is the scanner's |
| Beautify.AppendKeepsShape | scripts/beautify_fragments.py:88-96 | appending a line keeps the collapse loop's shape, unless the line is a blank after a blank |
| Beautify.CollapseFromShape | scripts/beautify_fragments.py:86-96 | the append loop never outputs two adjacent blanks or a leading blank |
| Beautify.CollapseFromNonBlank | scripts/beautify_fragments.py:86-96 | the append loop's non-blank entries are exactly the input's, in order |
| Beautify.DropTrailingBlanksShape | scripts/beautify_fragments.py:97-98 | the trailing `pop` loop leaves no trailing blank and keeps the non-blank entries and the no-adjacent-blanks shape |
| Beautify.CollapsedShape | scripts/beautify_fragments.py:85-99 | the result has no two adjacent blanks, neither starts nor ends with one, and its non-blank entries are the input's, in order |
| Beautify.CollapsedDropsLeadingBlanks | scripts/beautify_fragments.py:87-92 | blank lines before the first statement vanish |
| Beautify.CollapsedDropsTrailingBlanks | scripts/beautify_fragments.py:89-98 | blank lines after the last statement vanish |
| Beautify.CollapsedJoins | scripts/beautify_fragments.py:88-96 | two pieces that meet statement to statement collapse separately and are concatenated |
| Beautify.CollapsedKeepsOneBlank | scripts/beautify_fragments.py:89-94 | a run of one or more blank lines between two statements is kept as exactly one blank line |
| Beautify.CollapsedStatement | scripts/beautify_fragments.py:95-96 | a single non-blank line is kept as it is |
| Beautify.CollapseBlankLines | scripts/beautify_fragments.py:85-99 | both loops compute the collapse function, so the lemmas above describe the result, and it has no adjacent blanks, no blank at either end, and the input's non-blank lines in order |
| Beautify.Indentation | scripts/beautify_fragments.py:137 | `INDENT * n` is `2 * n` spaces |
| Beautify.BlankLineKeepsState | scripts/beautify_fragments.py:112-117 | a line that strips to nothing is emitted empty and changes no state |
| Beautify.DirectiveLineUnindented | scripts/beautify_fragments.py:119-129 | a directive is emitted stripped, so unindented, and leaves the level and the block-comment flag unchanged |
| Beautify.PresetDirectives | scripts/beautify_fragments.py:125-128 | `#preset ` in any case opens a preset block, `#endpreset` closes it, and other directives leave the state alone |
| Beautify.StrayEndPresetIsNoOp | scripts/beautify_fragments.py:127-128 | `#endpreset` outside a preset block changes no state |
| Beautify.PresetLinePassesThrough | scripts/beautify_fragments.py:131-133 | inside a preset block a non-directive line loses only its leading whitespace and changes no state |
| Beautify.CodeLineDispatch | scripts/beautify_fragments.py:131-135 | outside presets, a non-blank non-directive line is formatted as code, using the brace statistics of its right-trimmed text |
| Beautify.CodeLineIndent | scripts/beautify_fragments.py:135-139 | a code line gets `max(level - leading_close, 0)` units, which is at most the level; the new level is `max(level + delta, 0)` and the flag is the scanner's |
| Beautify.CloseAlignsWithOpen | scripts/beautify_fragments.py:135-139 | a line that opens one block and the `}` line closing it get the same indentation |
| Beautify.ReopenDedentsOnce | scripts/beautify_fragments.py:135-139 | a `} else {` line is dedented by one unit and leaves the level unchanged |
| Beautify.PlainBraceStats | scripts/beautify_fragments.py:72-82 | a trimmed line without quotes or slashes, read outside a block comment, has brace delta `{` count minus `}` count, one leading `}` exactly when it starts with one, and a clear flag |
| Beautify.BlockLinesAlign | scripts/beautify_fragments.py:109-137 | outside a preset, a plain line such as `x {` that opens one block and a plain line such as `}` that closes it are emitted at the same indentation, and the state returns to what it was |
| Beautify.ElseLineDedents | scripts/beautify_fragments.py:109-137 | outside a preset, a plain line such as `} else {` is emitted one unit left of the current level and leaves the state unchanged |
| Beautify.FormatLineStep | scripts/beautify_fragments.py:111-139 | the loop body computes the per-line formatting function |
| Beautify.FormatLineNoNewline | scripts/beautify_fragments.py:111-139 | a formatted line holds no newline when its input holds none |
| Beautify.FormatLinesNoNewline | scripts/beautify_fragments.py:111-139 | the loop emits one newline-free line per input line |
| Beautify.CollapsedNoNewline | scripts/beautify_fragments.py:85-99 | collapsing newline-free lines gives newline-free lines |
| Beautify.JoinedShape | scripts/beautify_fragments.py:142 | joining collapsed lines and adding `\n` ends in exactly one newline, and splitting the text before it gives the lines back |
| Beautify.FinishShape | scripts/beautify_fragments.py:141-142 | the finished text ends in exactly one newline, and its lines have no adjacent, leading or trailing blanks |
| Beautify.FormattedShape | scripts/beautify_fragments.py:102-142 | every formatted text ends in exactly one newline, and its lines have no adjacent, leading or trailing blanks |
| Beautify.FormatAll | scripts/beautify_fragments.py:106-139 | the loop over the lines, threading the level and both flags, emits the lines of the formatting function |
| Beautify.FormatFragText | scripts/beautify_fragments.py:102-142 | the method computes the formatting function; its result ends in exactly one newline and its lines have no adjacent, leading or trailing blanks |
| Text.JoinSplit | scripts/beautify_fragments.py:104 | joining the pieces of a split at a separator gives back the text |
| Text.SplitJoin | scripts/beautify_fragments.py:142 | splitting a join of separator-free pieces gives back the pieces |
| Text.StripEmptyIff | scripts/port_fragmentarium_3d.py:177 | a string strips to `""` exactly when all of its characters are whitespace |
| Port.IncludeMatch | scripts/port_fragmentarium_3d.py:24 | a captured name is non-empty and free of double quotes |
| Port.IncludeMatchSound | scripts/port_fragmentarium_3d.py:24 | every accepted line has the shape: optional whitespace, `#include`, at least one whitespace, a quoted name, optional whitespace |
| Port.IncludeMatchComplete | scripts/port_fragmentarium_3d.py:24 | every line of that shape is accepted, with its quoted name as the capture |
| Port.IncludeMatchIff | scripts/port_fragmentarium_3d.py:24 | the matcher captures `name` exactly when the line has the regular expression's shape with that name |
| Port.IncludeLineRoundTrip | scripts/port_fragmentarium_3d.py:146 | the `#include "name"` line the porter writes is matched and captures the name back |
| Port.NormalizeIncludeName | scripts/port_fragmentarium_3d.py:82-84 | the map's entry for the lower-cased name when there is one, otherwise the name unchanged |
| Port.NormalizeIncludeNameCaseOnly | scripts/port_fragmentarium_3d.py:75-84 | with a map keyed by lower-cased file names, normalising changes only letter case and is idempotent |
| Port.NormalizedNameIsQuotable | scripts/port_fragmentarium_3d.py:82-84 | a matched include name normalises to a name the matcher accepts back |
| Port.AnyIncludeOf | scripts/port_fragmentarium_3d.py:91-97 | the scan is true exactly when some line is an include whose lower-cased name is in the set |
| Port.IsThreeDCandidate | scripts/port_fragmentarium_3d.py:87-99 | an example is a candidate exactly when its camera search succeeds or some line includes a 3D trigger file, compared in lower case |
| Port.LegacyIncludeMakesCandidate | scripts/port_fragmentarium_3d.py:87-99 | an example with an include of a legacy renderer is a 3D candidate, whatever its camera line |
| Port.HeaderEnd | scripts/port_fragmentarium_3d.py:102-122 | from a start position: every skipped line is a header line, and the line at the end, if any, is not |
| Port.HeaderInsertIndex | scripts/port_fragmentarium_3d.py:102-122 | the index is at most the line count; every earlier line strips to blank, starts with `//`, `/*` or `*`, or in lower case starts with `#info` or `#define`; the line at the index is none of these |
| Port.HeaderInsertIndexUnique | scripts/port_fragmentarium_3d.py:102-122 | only one index has those properties |
| Port.FindHeaderInsertIndex | scripts/port_fragmentarium_3d.py:102-122 | the `while` loop with its five `continue` branches returns the header insert index |
| Transform.RewriteIncludes | scripts/port_fragmentarium_3d.py:130-146 | the rewrite loop returns exactly the kept lines and the removed names, in source order |
| Transform.Distribute | scripts/port_fragmentarium_3d.py:130-146 | the appends of the loop route each decision's text to the kept lines and each removed name to the removed list, in order |
| Transform.RewriteAccountsForEveryLine | scripts/port_fragmentarium_3d.py:130-146 | every line is either kept or removed, never both and never neither |
| Transform.RemovedAreLegacy | scripts/port_fragmentarium_3d.py:140-144 | every removed name is, in lower case, a legacy renderer include |
| Transform.DisposeKeepsNoLegacy | scripts/port_fragmentarium_3d.py:130-146 | a kept line never includes a legacy renderer, including a rewritten `#include "<normalized>"` line |
| Transform.KeptHasNoLegacyInclude | scripts/port_fragmentarium_3d.py:130-146 | after the rewrite no line includes a legacy renderer |
| Transform.PlainTextPassesThrough | scripts/port_fragmentarium_3d.py:131-138 | lines that are neither includes nor annotated samplers pass through unchanged, and nothing is removed |
| Transform.InsertAt | scripts/port_fragmentarium_3d.py:160 | the lines before the index are unchanged, the inserted lines follow, and then the rest |
| Transform.CommonCameraLineIncludesIt | scripts/port_fragmentarium_3d.py:151-160 | the inserted line is recognised as an include of `common-camera-3d.frag` |
| Transform.CommonCameraProvided | scripts/port_fragmentarium_3d.py:150-160 | after the camera phase the example has camera uniforms or includes the common camera |
| Transform.CommonCameraIdempotent | scripts/port_fragmentarium_3d.py:150-160 | the camera include is inserted at most once: a second camera phase changes nothing |
| Transform.IncludeRunEnd | scripts/port_fragmentarium_3d.py:168-172 | the lines from the start to the result are includes, and the line at the result, if any, is not |
| Transform.SkipIncludes | scripts/port_fragmentarium_3d.py:168-172 | the scan loop with its `break` stops at the end of the run of includes |
| Transform.OrbitTrapPlacement | scripts/port_fragmentarium_3d.py:163-175 | a blank line and the declaration are inserted after the header lines and the includes that follow them; every other line keeps its place |
| Transform.BlankPairsEnd | scripts/port_fragmentarium_3d.py:177-178 | the end lies between the start and the line count, and never leaves fewer than two lines when two or more remained at the start |
| Transform.BlankPairsEndDropsBlanks | scripts/port_fragmentarium_3d.py:177-178 | only blank lines are dropped, and dropping stops at the first position where fewer than three lines remain or one of the next two is not blank |
| Transform.DropLeadingBlankPairs | scripts/port_fragmentarium_3d.py:177-178 | the result is a suffix of the lines, and two or more lines stay two or more |
| Transform.DropLeadingBlankPairsDropsBlanks | scripts/port_fragmentarium_3d.py:177-178 | the dropped lines are blank, and the remaining lines do not start with two blanks unless fewer than three remain |
| Transform.PopLeadingBlankPairs | scripts/port_fragmentarium_3d.py:177-178 | the `pop(0)` loop leaves exactly those lines |
| Transform.FinishText | scripts/port_fragmentarium_3d.py:180-182 | the text ends with `\n`, and the character before it, if any, is not whitespace |
| Transform.TransformExampleSource | scripts/port_fragmentarium_3d.py:125-183 | the method, phase by phase, returns the text and removed names of the transformation function |
| SystemId.DashRunsIsDashed | scripts/port_fragmentarium_3d.py:190 | the run replacement leaves only `[a-z0-9]` and single dashes |
| SystemId.SlugIsSlug | scripts/port_fragmentarium_3d.py:190-191 | every slug is non-empty, uses only `[a-z0-9-]`, has no double dash, and neither starts nor ends with `-` |
| SystemId.SlugOfSlug | scripts/port_fragmentarium_3d.py:190-191 | text already of slug shape is its own slug |
| SystemId.SlugIdempotent | scripts/port_fragmentarium_3d.py:190-191 | slugging a slug changes nothing |
| Text.NonBlankMembers | scripts/port_fragmentarium_3d.py:187 | a path segment is kept exactly when it occurs in the split path and is non-empty |
| SystemId.BaseIdSegments | scripts/port_fragmentarium_3d.py:187-193 | the base id is `fragmentarium/` followed by text that splits at `/` into exactly the segments' slugs, each of slug shape |
| SystemId.SlugAll | scripts/port_fragmentarium_3d.py:188-191 | the slug loop produces the slug of each segment, in order |
| SystemId.BaseIdOf | scripts/port_fragmentarium_3d.py:187-193 | the method computes the base id |
| SystemId.NatToString | scripts/port_fragmentarium_3d.py:200 | `str(suffix)` is non-empty and made of decimal digits |
| SystemId.ParseNatToString | scripts/port_fragmentarium_3d.py:200 | reading the digits back gives the number |
| SystemId.CandidateInjective | scripts/port_fragmentarium_3d.py:198-204 | different suffixes give different candidate ids |
| SystemId.CandidatesTaken | scripts/port_fragmentarium_3d.py:198-204 | when all candidates below a suffix are taken, at least that many ids are used, so the suffix loop ends |
| SystemId.IdRegistry.MakeSystemId | scripts/port_fragmentarium_3d.py:186-204 | the id was not used before the call; the used ids grow by exactly that id; the id is the free base id, or, when the base is taken, `base-n` for the smallest free `n >= 2` |

## Left out

- File and process handling is not modelled:
  - `format_file`, `collect_frag_files`, `parse_args` and `main` of `scripts/beautify_fragments.py`, which read and write files, glob directories, parse arguments and set exit codes;
  - `collect_include_name_map`, `write_text` and `main` of `scripts/port_fragmentarium_3d.py`, which glob, copy, delete, write JSON and print. The sorting of removed names for the manifest, done in `main`, is part of this.
- `collect_include_name_map` appears only through what it guarantees about its map: every key is the lower-cased form of its value (`Port.NameMapKeyedByLower`). That guarantee is a hypothesis of the lemmas that need it.
- `scripts/start_server.py` and its tests are not part of this model. They check the file system and start a subprocess.
- Python's regular expression engine is not modelled.
  - `INCLUDE_LINE_RE` is a hand-written matcher.
  - `CAMERA_3D_RE`, `CAMERA_UNIFORM_RE`, `ORBIT_TRAP_USE_RE`, `ORBIT_TRAP_DECL_RE` and `SAMPLER_FILE_ANNOTATION_RE` are opaque parameters.
  - `DE_FUNCTION_RE` and `LEGACY_PIPELINE_RE` are used only by `main`.
  - The `re.sub` of `make_system_id` is written out as `SystemId.DashRuns`.
- Transform.KeptHasNoLegacyInclude: the sampler regular expression is opaque, so the lemma assumes that the group it captures is never an include line (`Transform.SamplerGroupNotInclude`). In the source's pattern that group is optional whitespace followed by `uniform`, while an include line has `#include` after its optional whitespace, so it cannot be one.
- Only ASCII text is modelled.
  - Whitespace is the ASCII part of `str.isspace` and of the regex class `\s`.
  - `str.lower` is ASCII case folding.
  - Line boundaries are the ASCII part of `str.splitlines`.
  - Non-ASCII whitespace such as U+0085 and U+00A0, and non-ASCII case mappings, are not modelled.
- Whole-text idempotence of `format_frag_text` is not stated. Only its per-line and per-text shape properties are proved.
- Transform.FinishText: the ending properties are proved. That no `texture2D(` remains after the replacement is not stated.
- Integers are unbounded, as Python's are, so no overflow arises anywhere in the model.
