/** `transform_example_source`: how the porter rewrites a legacy 3D example.
    The source goes through five phases: legacy renderer includes are
    removed and the other includes respelled, a common camera include is
    added when the example declares no camera, an orbit-trap declaration
    is added when the example uses one without declaring it, leading pairs
    of blank lines are dropped, and the text is finished. */
module Transform {
  import opened Wrappers
  import opened Text
  import opened Port

  /** The porter's regular expressions other than the include one:
      `samplerAnnotation` is the group `SAMPLER_FILE_ANNOTATION_RE` captures
      when it matches a line, `cameraUniform`, `orbitTrapUse` and
      `orbitTrapDecl` say whether `CAMERA_UNIFORM_RE`, `ORBIT_TRAP_USE_RE`
      and `ORBIT_TRAP_DECL_RE` occur in a text. */
  datatype Recognizers = Recognizers(
    samplerAnnotation: string -> Option<string>,
    cameraUniform: string -> bool,
    orbitTrapUse: string -> bool,
    orbitTrapDecl: string -> bool)

  /** The result of the transformation: the new text and the names of the
      includes it removed. */
  datatype Ported = Ported(text: string, removedIncludes: seq<string>)

  // ---------------------------------------------------------------------
  // Phase 1: removing and respelling includes

  /** What the rewrite does with one line. */
  datatype Disposition = Keep(text: string) | Remove(name: string)

  /** A legacy renderer include is removed under its normalised name; any
      other include is rewritten with its normalised name; a sampler with a
      file annotation loses the annotation; every other line is kept. */
  function Dispose(line: string, nameMap: map<string, string>, rec: Recognizers): Disposition {
    match IncludeMatch(line)
    case None =>
      (match rec.samplerAnnotation(line)
       case Some(declaration) => Keep(declaration)
       case None => Keep(line))
    case Some(includeName) =>
      var normalized := NormalizeIncludeName(includeName, nameMap);
      if Lower(normalized) in LegacyRendererIncludesLower then Remove(normalized)
      else Keep(IncludeLine(normalized))
  }

  /** What the rewrite does with each line. */
  function Dispositions(lines: seq<string>, nameMap: map<string, string>, rec: Recognizers): (ds: seq<Disposition>)
    ensures |ds| == |lines|
    ensures forall k :: 0 <= k < |lines| ==> ds[k] == Dispose(lines[k], nameMap, rec)
  {
    seq(|lines|, k requires 0 <= k < |lines| => Dispose(lines[k], nameMap, rec))
  }

  /** The kept lines, in order. */
  function KeptOf(ds: seq<Disposition>): seq<string> {
    if ds == [] then []
    else (match ds[0] case Keep(text) => [text] case Remove(_) => []) + KeptOf(ds[1..])
  }

  /** The removed names, in order. */
  function RemovedOf(ds: seq<Disposition>): seq<string> {
    if ds == [] then []
    else (match ds[0] case Keep(_) => [] case Remove(name) => [name]) + RemovedOf(ds[1..])
  }

  /** The lines the rewrite keeps, in source order. */
  function Kept(lines: seq<string>, nameMap: map<string, string>, rec: Recognizers): seq<string> {
    KeptOf(Dispositions(lines, nameMap, rec))
  }

  /** The names of the removed includes, in source order. */
  function Removed(lines: seq<string>, nameMap: map<string, string>, rec: Recognizers): seq<string> {
    RemovedOf(Dispositions(lines, nameMap, rec))
  }

  /** One more disposition extends the kept lines by its text, if kept. */
  lemma {:induction false} KeptOfAppend(ds: seq<Disposition>, d: Disposition)
    ensures KeptOf(ds + [d]) == KeptOf(ds) + (if d.Keep? then [d.text] else [])
  {
    if ds == [] {
      assert [] + [d] == [d];
    } else {
      assert (ds + [d])[0] == ds[0];
      assert (ds + [d])[1..] == ds[1..] + [d];
      KeptOfAppend(ds[1..], d);
    }
  }

  /** One more disposition extends the removed names by its name, if removed. */
  lemma {:induction false} RemovedOfAppend(ds: seq<Disposition>, d: Disposition)
    ensures RemovedOf(ds + [d]) == RemovedOf(ds) + (if d.Remove? then [d.name] else [])
  {
    if ds == [] {
      assert [] + [d] == [d];
    } else {
      assert (ds + [d])[0] == ds[0];
      assert (ds + [d])[1..] == ds[1..] + [d];
      RemovedOfAppend(ds[1..], d);
    }
  }

  /** Every disposition contributes to exactly one of the two outputs. */
  lemma {:induction false} KeptAndRemovedCount(ds: seq<Disposition>)
    ensures |KeptOf(ds)| + |RemovedOf(ds)| == |ds|
  {
    if ds != [] {
      KeptAndRemovedCount(ds[1..]);
    }
  }

  /** Every line is either kept or removed. */
  lemma RewriteAccountsForEveryLine(lines: seq<string>, nameMap: map<string, string>, rec: Recognizers)
    ensures |Kept(lines, nameMap, rec)| + |Removed(lines, nameMap, rec)| == |lines|
  {
    KeptAndRemovedCount(Dispositions(lines, nameMap, rec));
  }

  /** The removed names are those of the removed dispositions. */
  lemma {:induction false} RemovedOfNames(ds: seq<Disposition>, names: set<string>)
    requires forall k :: 0 <= k < |ds| && ds[k].Remove? ==> Lower(ds[k].name) in names
    ensures forall k :: 0 <= k < |RemovedOf(ds)| ==> Lower(RemovedOf(ds)[k]) in names
  {
    if ds != [] {
      RemovedOfNames(ds[1..], names);
    }
  }

  /** Every removed name is a legacy renderer include. */
  lemma RemovedAreLegacy(lines: seq<string>, nameMap: map<string, string>, rec: Recognizers)
    ensures forall k :: 0 <= k < |Removed(lines, nameMap, rec)| ==>
      Lower(Removed(lines, nameMap, rec)[k]) in LegacyRendererIncludesLower
  {
    RemovedOfNames(Dispositions(lines, nameMap, rec), LegacyRendererIncludesLower);
  }

  /** The sampler annotation group never reads as an include line (the
      group starts with `uniform`). */
  ghost predicate SamplerGroupNotInclude(rec: Recognizers) {
    forall line :: rec.samplerAnnotation(line).Some? ==> IncludeMatch(rec.samplerAnnotation(line).value).None?
  }

  /** A kept line is no legacy renderer include: the removal is complete. */
  lemma DisposeKeepsNoLegacy(line: string, nameMap: map<string, string>, rec: Recognizers)
    requires NameMapKeyedByLower(nameMap) && SamplerGroupNotInclude(rec)
    requires Dispose(line, nameMap, rec).Keep?
    ensures !IncludesOneOf(Dispose(line, nameMap, rec).text, LegacyRendererIncludesLower)
  {
    match IncludeMatch(line)
    case None =>
    case Some(includeName) =>
      var normalized := NormalizeIncludeName(includeName, nameMap);
      NormalizedNameIsQuotable(includeName, nameMap);
      IncludeLineRoundTrip(normalized);
  }

  /** Kept lines of which none includes one of `names` are scanned as such. */
  lemma {:induction false} KeptOfIncludesNone(ds: seq<Disposition>, names: set<string>)
    requires forall k :: 0 <= k < |ds| && ds[k].Keep? ==> !IncludesOneOf(ds[k].text, names)
    ensures !AnyIncludeOf(KeptOf(ds), names)
  {
    if ds != [] {
      KeptOfIncludesNone(ds[1..], names);
      var rest := KeptOf(ds[1..]);
      if ds[0].Keep? {
        assert KeptOf(ds) == [ds[0].text] + rest;
        assert forall k :: 1 <= k < |rest| + 1 ==> ([ds[0].text] + rest)[k] == rest[k - 1];
      } else {
        assert KeptOf(ds) == rest;
      }
    }
  }

  /** After the rewrite no line includes a legacy renderer. */
  lemma KeptHasNoLegacyInclude(lines: seq<string>, nameMap: map<string, string>, rec: Recognizers)
    requires NameMapKeyedByLower(nameMap) && SamplerGroupNotInclude(rec)
    ensures !AnyIncludeOf(Kept(lines, nameMap, rec), LegacyRendererIncludesLower)
  {
    var ds := Dispositions(lines, nameMap, rec);
    forall k | 0 <= k < |ds| && ds[k].Keep?
      ensures !IncludesOneOf(ds[k].text, LegacyRendererIncludesLower)
    {
      DisposeKeepsNoLegacy(lines[k], nameMap, rec);
    }
    KeptOfIncludesNone(ds, LegacyRendererIncludesLower);
  }

  /** Dispositions that keep every line unchanged keep the lines. */
  lemma {:induction false} KeptOfUnchanged(ds: seq<Disposition>, lines: seq<string>)
    requires |ds| == |lines| && forall k :: 0 <= k < |ds| ==> ds[k] == Keep(lines[k])
    ensures KeptOf(ds) == lines && RemovedOf(ds) == []
  {
    if ds != [] {
      KeptOfUnchanged(ds[1..], lines[1..]);
    }
  }

  /** Text with no include line and no sampler annotation passes through
      unchanged and nothing is removed. */
  lemma PlainTextPassesThrough(lines: seq<string>, nameMap: map<string, string>, rec: Recognizers)
    requires forall k :: 0 <= k < |lines| ==> IncludeMatch(lines[k]).None? && rec.samplerAnnotation(lines[k]).None?
    ensures Kept(lines, nameMap, rec) == lines
    ensures Removed(lines, nameMap, rec) == []
  {
    KeptOfUnchanged(Dispositions(lines, nameMap, rec), lines);
  }

  /** `transform_example_source`: the rewrite loop, which
      decides each line and appends it to the kept lines or its name to the
      removed includes. */
  method RewriteIncludes(lines: seq<string>, nameMap: map<string, string>, rec: Recognizers)
    returns (kept: seq<string>, removed: seq<string>)
    ensures kept == Kept(lines, nameMap, rec)
    ensures removed == Removed(lines, nameMap, rec)
  {
    kept, removed := Distribute(Dispositions(lines, nameMap, rec));
  }

  /** The appending half of the rewrite loop: kept text goes to `kept` and
      removed names to `removed`, both in order. */
  method Distribute(ds: seq<Disposition>) returns (kept: seq<string>, removed: seq<string>)
    ensures kept == KeptOf(ds)
    ensures removed == RemovedOf(ds)
  {
    kept, removed := [], [];
    for i := 0 to |ds|
      invariant kept == KeptOf(ds[..i])
      invariant removed == RemovedOf(ds[..i])
    {
      assert ds[..i + 1] == ds[..i] + [ds[i]];
      KeptOfAppend(ds[..i], ds[i]);
      RemovedOfAppend(ds[..i], ds[i]);
      match ds[i]
      case Keep(text) =>
        kept := kept + [text];
      case Remove(name) =>
        removed := removed + [name];
    }
    assert ds[..|ds|] == ds;
  }

  // ---------------------------------------------------------------------
  // Phase 2: the common camera include

  /** The include line of the shared 3D camera. */
  const CommonCameraLine: string := IncludeLine(CommonCamera)

  /** `xs` with `ys` inserted before position `i`. */
  function InsertAt(xs: seq<string>, i: nat, ys: seq<string>): (r: seq<string>)
    requires i <= |xs|
    ensures |r| == |xs| + |ys|
    ensures r[..i] == xs[..i] && r[i..i + |ys|] == ys && r[i + |ys|..] == xs[i..]
  {
    xs[..i] + ys + xs[i..]
  }

  /** The camera include is added when the text declares no camera
      uniforms and does not include the common camera yet. */
  predicate NeedsCommonCamera(lines: seq<string>, rec: Recognizers) {
    !rec.cameraUniform(Join(lines, '\n')) && !AnyIncludeOf(lines, {CommonCamera})
  }

  /** The lines after the camera phase: the camera include goes right
      after the header. */
  function WithCommonCamera(lines: seq<string>, rec: Recognizers): seq<string> {
    if NeedsCommonCamera(lines, rec) then InsertAt(lines, HeaderInsertIndex(lines), [CommonCameraLine])
    else lines
  }

  /** The common camera's name is in lower case. */
  lemma CommonCameraIsLower()
    ensures Lower(CommonCamera) == CommonCamera
  {
    LowerOfLowerCase(CommonCamera);
  }

  /** The inserted line is read back as an include of the common camera. */
  lemma CommonCameraLineIncludesIt()
    ensures IncludesOneOf(CommonCameraLine, {CommonCamera})
  {
    assert IsName(CommonCamera);
    IncludeLineRoundTrip(CommonCamera);
    CommonCameraIsLower();
  }

  /** After the camera phase the example has a camera: its own uniforms or
      the common camera include. */
  lemma CommonCameraProvided(lines: seq<string>, rec: Recognizers)
    ensures rec.cameraUniform(Join(lines, '\n')) || AnyIncludeOf(WithCommonCamera(lines, rec), {CommonCamera})
  {
    if NeedsCommonCamera(lines, rec) {
      var r := WithCommonCamera(lines, rec);
      var h := HeaderInsertIndex(lines);
      CommonCameraLineIncludesIt();
      assert r[h] == CommonCameraLine;
    }
  }

  /** The camera phase inserts at most once: a second pass changes nothing. */
  lemma CommonCameraIdempotent(lines: seq<string>, rec: Recognizers)
    ensures WithCommonCamera(WithCommonCamera(lines, rec), rec) == WithCommonCamera(lines, rec)
  {
    if NeedsCommonCamera(lines, rec) {
      var r := WithCommonCamera(lines, rec);
      var h := HeaderInsertIndex(lines);
      CommonCameraLineIncludesIt();
      assert r[h] == CommonCameraLine;
      assert !NeedsCommonCamera(r, rec);
    }
  }

  // ---------------------------------------------------------------------
  // Phase 3: the orbit-trap declaration

  /** The end of the run of include lines that starts at `i`. */
  function IncludeRunEnd(lines: seq<string>, i: nat): (r: nat)
    requires i <= |lines|
    ensures i <= r <= |lines|
    ensures forall k :: i <= k < r ==> IncludeMatch(lines[k]).Some?
    ensures r < |lines| ==> IncludeMatch(lines[r]).None?
    decreases |lines| - i
  {
    if i == |lines| || IncludeMatch(lines[i]).None? then i else IncludeRunEnd(lines, i + 1)
  }

  /** Where the declaration goes: after the header and the includes that
      follow it. */
  function OrbitTrapIndex(lines: seq<string>): (r: nat)
    ensures r <= |lines|
  {
    IncludeRunEnd(lines, HeaderInsertIndex(lines))
  }

  /** The declaration is added when the text uses `orbitTrap` without
      declaring it. */
  predicate NeedsOrbitTrap(lines: seq<string>, rec: Recognizers) {
    var text := Join(lines, '\n');
    rec.orbitTrapUse(text) && !rec.orbitTrapDecl(text)
  }

  /** The lines after the orbit-trap phase: a blank line and the
      declaration. */
  function WithOrbitTrap(lines: seq<string>, rec: Recognizers): seq<string> {
    if NeedsOrbitTrap(lines, rec) then InsertAt(lines, OrbitTrapIndex(lines), ["", OrbitTrapDeclaration])
    else lines
  }

  /** The declaration follows a blank line, right after the header lines
      and the include lines after them, and before any other line. */
  lemma OrbitTrapPlacement(lines: seq<string>, rec: Recognizers)
    requires NeedsOrbitTrap(lines, rec)
    ensures var r := WithOrbitTrap(lines, rec); var i := OrbitTrapIndex(lines);
      && r[i] == "" && r[i + 1] == OrbitTrapDeclaration
      && r[..i] == lines[..i] && r[i + 2..] == lines[i..]
      && (forall k :: 0 <= k < i ==> IsHeaderLine(lines[k]) || IncludeMatch(lines[k]).Some?)
      && (i < |lines| ==> IncludeMatch(lines[i]).None?)
  {
    var r := WithOrbitTrap(lines, rec);
    var i := OrbitTrapIndex(lines);
    assert r[i..i + 2] == ["", OrbitTrapDeclaration];
    assert r[i] == r[i..i + 2][0];
    assert r[i + 1] == r[i..i + 2][1];
  }

  /** `transform_example_source`: the scan past the includes after the header. */
  method SkipIncludes(lines: seq<string>, start: nat) returns (idx: nat)
    requires start <= |lines|
    ensures idx == IncludeRunEnd(lines, start)
  {
    idx := start;
    while idx < |lines|
      invariant start <= idx <= |lines|
      invariant IncludeRunEnd(lines, idx) == IncludeRunEnd(lines, start)
      decreases |lines| - idx
    {
      var includeMatch := IncludeMatch(lines[idx]);
      if includeMatch.None? {
        break;
      }
      idx := idx + 1;
    }
  }

  // ---------------------------------------------------------------------
  // Phase 4: leading blank lines

  /** The first line from `i` on at which the dropping stops: while the
      two lines at the position are blank and at least three lines remain,
      one line is dropped. */
  function BlankPairsEnd(lines: seq<string>, i: nat): (j: nat)
    requires i <= |lines|
    ensures i <= j <= |lines|
    ensures |lines| - i >= 2 ==> |lines| - j >= 2
    decreases |lines| - i
  {
    if |lines| - i >= 3 && IsBlank(lines[i]) && IsBlank(lines[i + 1]) then BlankPairsEnd(lines, i + 1)
    else i
  }

  /** The lines without the leading blank lines dropped by the `pop(0)` loop;
      two or more lines stay two or more. */
  function DropLeadingBlankPairs(lines: seq<string>): (r: seq<string>)
    ensures |r| <= |lines| && r == lines[|lines| - |r|..]
    ensures |lines| >= 2 ==> |r| >= 2
  {
    lines[BlankPairsEnd(lines, 0)..]
  }

  /** Only blank lines are dropped, and dropping stops as soon as one of the
      first two lines is not blank or fewer than three lines remain. */
  lemma {:induction false} BlankPairsEndDropsBlanks(lines: seq<string>, i: nat)
    requires i <= |lines|
    ensures var j := BlankPairsEnd(lines, i);
      && (forall k :: i <= k < j ==> IsBlank(lines[k]))
      && !(|lines| - j >= 3 && IsBlank(lines[j]) && IsBlank(lines[j + 1]))
    decreases |lines| - i
  {
    if |lines| - i >= 3 && IsBlank(lines[i]) && IsBlank(lines[i + 1]) {
      BlankPairsEndDropsBlanks(lines, i + 1);
    }
  }

  /** The dropped lines are blank and the kept lines do not start with two
      blank lines unless fewer than three remain. */
  lemma DropLeadingBlankPairsDropsBlanks(lines: seq<string>)
    ensures var r := DropLeadingBlankPairs(lines);
      && (forall k :: 0 <= k < |lines| - |r| ==> IsBlank(lines[k]))
      && !(|r| >= 3 && IsBlank(r[0]) && IsBlank(r[1]))
  {
    BlankPairsEndDropsBlanks(lines, 0);
  }

  /** `transform_example_source`: the `pop(0)` loop. */
  method PopLeadingBlankPairs(lines: seq<string>) returns (r: seq<string>)
    ensures r == DropLeadingBlankPairs(lines)
  {
    r := lines;
    ghost var dropped := 0;
    while |r| >= 3 && Strip(r[0]) == "" && Strip(r[1]) == ""
      invariant dropped <= |lines| && r == lines[dropped..]
      invariant BlankPairsEnd(lines, dropped) == BlankPairsEnd(lines, 0)
      decreases |r|
    {
      StripEmptyIff(r[0]);
      StripEmptyIff(r[1]);
      r := r[1..];
      dropped := dropped + 1;
    }
    if |r| >= 3 {
      StripEmptyIff(r[0]);
      StripEmptyIff(r[1]);
    }
  }

  // ---------------------------------------------------------------------
  // Phase 5: the final text

  /** The joined lines with `texture2D(` renamed, trailing whitespace
      stripped and one newline appended. */
  function FinishText(lines: seq<string>): (r: string)
    ensures |r| >= 1 && r[|r| - 1] == '\n'
    ensures |r| == 1 || !IsSpace(r[|r| - 2])
  {
    RStrip(ReplaceAll(Join(lines, '\n'), "texture2D(", "texture(")) + "\n"
  }

  // ---------------------------------------------------------------------
  // The whole transformation

  /** `transform_example_source`. */
  function Transformed(source: string, nameMap: map<string, string>, rec: Recognizers): Ported {
    var lines := SplitLines(source);
    var kept := Kept(lines, nameMap, rec);
    var withOrbitTrap := WithOrbitTrap(WithCommonCamera(kept, rec), rec);
    Ported(FinishText(DropLeadingBlankPairs(withOrbitTrap)), Removed(lines, nameMap, rec))
  }

  /** `transform_example_source`: the rewrite loop, the two insertions,
      the blank-line loop and the final replacements. */
  method TransformExampleSource(source: string, nameMap: map<string, string>, rec: Recognizers)
    returns (transformed: string, removedIncludes: seq<string>)
    ensures Ported(transformed, removedIncludes) == Transformed(source, nameMap, rec)
  {
    var originalLines := SplitLines(source);
    var transformedLines;
    transformedLines, removedIncludes := RewriteIncludes(originalLines, nameMap, rec);

    var sourceAfterRemove := Join(transformedLines, '\n');
    var hasCameraUniforms := rec.cameraUniform(sourceAfterRemove);
    var includesCommonCamera := AnyIncludeOf(transformedLines, {CommonCamera});
    if !hasCameraUniforms && !includesCommonCamera {
      var insertIdx := FindHeaderInsertIndex(transformedLines);
      transformedLines := InsertAt(transformedLines, insertIdx, [CommonCameraLine]);
    }
    assert transformedLines == WithCommonCamera(Kept(originalLines, nameMap, rec), rec);

    var sourceAfterCamera := Join(transformedLines, '\n');
    var usesOrbitTrap := rec.orbitTrapUse(sourceAfterCamera);
    var hasOrbitTrapDecl := rec.orbitTrapDecl(sourceAfterCamera);
    if usesOrbitTrap && !hasOrbitTrapDecl {
      var insertIdx := FindHeaderInsertIndex(transformedLines);
      insertIdx := SkipIncludes(transformedLines, insertIdx);
      transformedLines := InsertAt(transformedLines, insertIdx, ["", OrbitTrapDeclaration]);
    }

    transformedLines := PopLeadingBlankPairs(transformedLines);
    var text := Join(transformedLines, '\n');
    text := ReplaceAll(text, "texture2D(", "texture(");
    transformed := RStrip(text) + "\n";
  }
}
