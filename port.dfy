/** The helpers of the Fragmentarium example porter that read lines:
    include-line matching, case-insensitive include-name lookup, the
    3D-candidate test and the header scan. The source transformation is
    in module `Transform` and system-id allocation in module `SystemId`. */
module Port {
  import opened Wrappers
  import opened Text

  // ---------------------------------------------------------------------
  // Constants

  /** `LEGACY_RENDERER_INCLUDES`: the renderer includes the port removes. */
  const LegacyRendererIncludes: set<string> := {
    "3D.frag",
    "Brute3D.frag",
    "Brute-Raytracer.frag",
    "DE-Raytracer.frag",
    "DE-Raytracer-v0.9.1.frag",
    "DE-Raytracer-v0.9.10.frag",
    "DE-Raytracer-Slicer.frag",
    "DE-RaytracerX.frag",
    "Fast-Raytracer.frag",
    "IBL-Pathtracer.frag",
    "IBL-Raytracer.frag",
    "Path-Raytracer.frag",
    "Sky-Pathtracer.frag",
    "Soft-Raytracer.frag",
    "Subblue-Raytracer.frag",
    "ZBuffer3D.frag"
  }

  /** `LEGACY_RENDERER_INCLUDES_LOWER`: the same names in lower case. */
  const LegacyRendererIncludesLower: set<string> := set x | x in LegacyRendererIncludes :: Lower(x)

  /** `THREED_TRIGGER_INCLUDES_LOWER`: the lowered legacy includes plus two more. */
  const ThreeDTriggerIncludesLower: set<string> := LegacyRendererIncludesLower + {"3d.frag", "zbuffer3d.frag"}

  const IncludeKeyword := "#include"
  const CommonCamera := "common-camera-3d.frag"
  const OrbitTrapDeclaration := "vec4 orbitTrap = vec4(1.0e20);"

  // ---------------------------------------------------------------------
  // INCLUDE_LINE_RE: optional whitespace, `#include`, at least one
  // whitespace, a double-quoted non-empty name without quotes, optional
  // whitespace, end of line.

  /** `[^"]+`: a non-empty run of characters other than the double quote. */
  predicate IsName(s: string) {
    s != [] && forall j :: 0 <= j < |s| ==> s[j] != '"'
  }

  /** The text of an include line for `name`, as the porter writes it. */
  function IncludeLine(name: string): string {
    IncludeKeyword + " \"" + name + "\""
  }

  /** The end of the run of whitespace of `s` that starts at `i`. */
  function SpaceEnd(s: string, i: nat): (r: nat)
    requires i <= |s|
    ensures i <= r <= |s|
    ensures forall p :: i <= p < r ==> IsSpace(s[p])
    ensures r < |s| ==> !IsSpace(s[r])
    decreases |s| - i
  {
    if i == |s| || !IsSpace(s[i]) then i else SpaceEnd(s, i + 1)
  }

  /** The end of the run of non-quote characters of `s` that starts at `i`. */
  function NameEnd(s: string, i: nat): (r: nat)
    requires i <= |s|
    ensures i <= r <= |s|
    ensures forall p :: i <= p < r ==> s[p] != '"'
    ensures r < |s| ==> s[r] == '"'
    decreases |s| - i
  {
    if i == |s| || s[i] == '"' then i else NameEnd(s, i + 1)
  }

  /** The name captured by `INCLUDE_LINE_RE.match(line)`, if it matches:
      optional whitespace, `#include`, at least one whitespace, a quoted
      name, optional whitespace, the end of the line. */
  function IncludeMatch(line: string): (r: Option<string>)
    ensures r.Some? ==> IsName(r.value)
  {
    var i := SpaceEnd(line, 0);
    var i' := i + |IncludeKeyword|;
    if i' > |line| || line[i..i'] != IncludeKeyword then None
    else
      var j := SpaceEnd(line, i');
      if j == i' || j == |line| || line[j] != '"' then None
      else
        var k := NameEnd(line, j + 1);
        if k == j + 1 || k == |line| || SpaceEnd(line, k + 1) != |line| then None
        else Some(line[j + 1..k])
  }

  /** A double-quoted name between leading and trailing text. */
  function Quoted(b: string, name: string, c: string): string {
    b + (['"'] + (name + (['"'] + c)))
  }

  /** The lines the include regular expression describes, with the name it
      captures. */
  ghost predicate IsIncludeLine(line: string, name: string) {
    && IsName(name)
    && exists a: string, b: string, c: string ::
      && IsBlank(a) && IsBlank(b) && b != [] && IsBlank(c)
      && line == a + (IncludeKeyword + Quoted(b, name, c))
  }

  /** Whatever the matcher accepts has the shape of the regular expression. */
  lemma IncludeMatchSound(line: string)
    requires IncludeMatch(line).Some?
    ensures IsIncludeLine(line, IncludeMatch(line).value)
  {
    var i := SpaceEnd(line, 0);
    var i' := i + |IncludeKeyword|;
    var j := SpaceEnd(line, i');
    var k := NameEnd(line, j + 1);
    var a, b, name, c := line[..i], line[i'..j], line[j + 1..k], line[k + 1..];
    assert IncludeMatch(line).value == name;
    assert IsBlank(a) by {
      forall p | 0 <= p < |a| ensures IsSpace(a[p]) {
        assert a[p] == line[p];
      }
    }
    assert IsBlank(b) && b != [] by {
      forall p | 0 <= p < |b| ensures IsSpace(b[p]) {
        assert b[p] == line[i' + p];
      }
    }
    assert IsBlank(c) by {
      forall p | 0 <= p < |c| ensures IsSpace(c[p]) {
        assert c[p] == line[k + 1 + p];
      }
    }
    Decompose(line, i, i', j, k);
  }

  /** The pieces the matcher finds make up the line. */
  lemma Decompose(line: string, i: nat, i': nat, j: nat, k: nat)
    requires i <= i' <= j < k < |line|
    requires line[i..i'] == IncludeKeyword && line[j] == '"' && line[k] == '"'
    ensures line == line[..i] + (IncludeKeyword + Quoted(line[i'..j], line[j + 1..k], line[k + 1..]))
  {
    assert line[k..] == ['"'] + line[k + 1..];
    assert line[j + 1..] == line[j + 1..k] + line[k..];
    assert line[j..] == ['"'] + line[j + 1..];
    assert line[i'..] == line[i'..j] + line[j..];
    assert line[i..] == line[i..i'] + line[i'..];
    assert line == line[..i] + line[i..];
  }

  /** `SpaceEnd` stops at the first character that is not whitespace. */
  lemma {:induction false} SpaceEndAt(s: string, i: nat, r: nat)
    requires i <= r <= |s|
    requires forall p :: i <= p < r ==> IsSpace(s[p])
    requires r == |s| || !IsSpace(s[r])
    ensures SpaceEnd(s, i) == r
    decreases r - i
  {
    if i < r {
      SpaceEndAt(s, i + 1, r);
    }
  }

  /** `NameEnd` stops at the first double quote. */
  lemma {:induction false} NameEndAt(s: string, i: nat, r: nat)
    requires i <= r < |s| && s[r] == '"'
    requires forall p :: i <= p < r ==> s[p] != '"'
    ensures NameEnd(s, i) == r
    decreases r - i
  {
    if i < r {
      NameEndAt(s, i + 1, r);
    }
  }

  /** The matcher in terms of positions: where the keyword, the spaces and
      the two quotes are, it captures what lies between the quotes. */
  lemma IncludeMatchAt(line: string, i: nat, j: nat, k: nat)
    requires i + |IncludeKeyword| < j < k < |line|
    requires forall p :: 0 <= p < i ==> IsSpace(line[p])
    requires line[i..i + |IncludeKeyword|] == IncludeKeyword
    requires forall p :: i + |IncludeKeyword| <= p < j ==> IsSpace(line[p])
    requires line[j] == '"' && line[k] == '"' && j + 1 < k
    requires forall p :: j < p < k ==> line[p] != '"'
    requires forall p :: k < p < |line| ==> IsSpace(line[p])
    ensures IncludeMatch(line) == Some(line[j + 1..k])
  {
    SpaceEndAt(line, 0, i);
    SpaceEndAt(line, i + |IncludeKeyword|, j);
    NameEndAt(line, j + 1, k);
    SpaceEndAt(line, k + 1, |line|);
    IncludeMatchStops(line, i, j, k);
  }

  /** The matcher accepts once each of its scans stops where expected. */
  lemma IncludeMatchStops(line: string, i: nat, j: nat, k: nat)
    requires i + |IncludeKeyword| < j < k < |line|
    requires SpaceEnd(line, 0) == i && line[i..i + |IncludeKeyword|] == IncludeKeyword
    requires SpaceEnd(line, i + |IncludeKeyword|) == j && line[j] == '"'
    requires j + 1 < k && NameEnd(line, j + 1) == k && SpaceEnd(line, k + 1) == |line|
    ensures IncludeMatch(line) == Some(line[j + 1..k])
  {
  }

  /** Every line of the shape of the regular expression is matched, and the
      captured name is the quoted one. */
  lemma IncludeMatchComplete(a: string, b: string, name: string, c: string)
    requires IsBlank(a) && IsBlank(b) && b != [] && IsBlank(c)
    requires IsName(name)
    ensures IncludeMatch(a + (IncludeKeyword + Quoted(b, name, c))) == Some(name)
  {
    var line := a + (IncludeKeyword + Quoted(b, name, c));
    var i := |a|;
    var i' := i + |IncludeKeyword|;
    var j := i' + |b|;
    var k := j + 1 + |name|;
    var q := Quoted(b, name, c);
    assert line[..i] == a;
    assert line[i..] == IncludeKeyword + q;
    assert line[i..i'] == IncludeKeyword;
    assert line[i'..] == q;
    assert forall p :: i' <= p < j ==> line[p] == b[p - i'];
    assert line[j] == '"';
    assert forall p :: j < p < k ==> line[p] == name[p - j - 1];
    assert line[k] == '"';
    assert forall p :: k < p < |line| ==> line[p] == c[p - k - 1];
    assert line[j + 1..k] == name;
    IncludeMatchAt(line, i, j, k);
  }

  /** The matcher accepts a line exactly when it has the shape of the
      regular expression, and then captures the quoted name. */
  lemma IncludeMatchIff(line: string, name: string)
    ensures IncludeMatch(line) == Some(name) <==> IsIncludeLine(line, name)
  {
    if IncludeMatch(line) == Some(name) {
      IncludeMatchSound(line);
    }
    if IsIncludeLine(line, name) {
      var a: string, b: string, c: string :|
        && IsBlank(a) && IsBlank(b) && b != [] && IsBlank(c)
        && line == a + (IncludeKeyword + Quoted(b, name, c));
      IncludeMatchComplete(a, b, name, c);
    }
  }

  /** The include line the porter writes is matched and gives its name back. */
  lemma IncludeLineRoundTrip(name: string)
    requires IsName(name)
    ensures IncludeMatch(IncludeLine(name)) == Some(name)
  {
    IncludeMatchComplete([], " ", name, []);
    assert [] + (IncludeKeyword + Quoted(" ", name, [])) == IncludeLine(name);
  }

  // ---------------------------------------------------------------------
  // normalize_include_name

  /** The canonical spelling of an include name: the map's entry for its
      lower-case form, or the name itself. */
  function NormalizeIncludeName(includeName: string, includeNameMap: map<string, string>): (r: string)
    ensures Lower(includeName) in includeNameMap ==> r == includeNameMap[Lower(includeName)]
    ensures Lower(includeName) !in includeNameMap ==> r == includeName
  {
    if Lower(includeName) in includeNameMap then includeNameMap[Lower(includeName)] else includeName
  }

  /** A map as `collect_include_name_map` builds it: each file name under
      its lower-case form. */
  predicate NameMapKeyedByLower(includeNameMap: map<string, string>) {
    forall k :: k in includeNameMap ==> Lower(includeNameMap[k]) == k
  }

  /** Normalising only changes the case of a name, so it is idempotent. */
  lemma NormalizeIncludeNameCaseOnly(includeName: string, includeNameMap: map<string, string>)
    requires NameMapKeyedByLower(includeNameMap)
    ensures Lower(NormalizeIncludeName(includeName, includeNameMap)) == Lower(includeName)
    ensures NormalizeIncludeName(NormalizeIncludeName(includeName, includeNameMap), includeNameMap)
         == NormalizeIncludeName(includeName, includeNameMap)
  {
  }

  /** A matched include name normalises to a name the include matcher
      accepts back. */
  lemma NormalizedNameIsQuotable(includeName: string, includeNameMap: map<string, string>)
    requires NameMapKeyedByLower(includeNameMap)
    requires IsName(includeName)
    ensures IsName(NormalizeIncludeName(includeName, includeNameMap))
  {
    NormalizeIncludeNameCaseOnly(includeName, includeNameMap);
  }

  // ---------------------------------------------------------------------
  // is_3d_candidate

  /** An include line whose name, in lower case, is one of `names`. */
  predicate IncludesOneOf(line: string, names: set<string>) {
    var m := IncludeMatch(line);
    m.Some? && Lower(m.value) in names
  }

  /** A scan for a line that includes one of `names` (case-insensitively). */
  function AnyIncludeOf(lines: seq<string>, names: set<string>): (r: bool)
    ensures r <==> exists k :: 0 <= k < |lines| && IncludesOneOf(lines[k], names)
  {
    if lines == [] then false
    else if IncludesOneOf(lines[0], names) then true
    else
      var r := AnyIncludeOf(lines[1..], names);
      assert forall k :: 1 <= k < |lines| ==> lines[k] == lines[1..][k - 1];
      r
  }

  /** `is_3d_candidate`: a `#camera 3D` line (`camera3D`, the
      `CAMERA_3D_RE` search) or an include of a 3D trigger file. */
  function IsThreeDCandidate(source: string, camera3D: string -> bool): (r: bool)
    ensures var lines := SplitLines(source);
      r <==> camera3D(source) || exists k :: 0 <= k < |lines| && IncludesOneOf(lines[k], ThreeDTriggerIncludesLower)
  {
    var lines := SplitLines(source);
    var included := AnyIncludeOf(lines, ThreeDTriggerIncludesLower);
    camera3D(source) || included
  }

  /** Every example that includes a legacy renderer is a 3D candidate,
      whatever its camera line says. */
  lemma LegacyIncludeMakesCandidate(source: string, camera3D: string -> bool, k: nat)
    requires k < |SplitLines(source)|
    requires var m := IncludeMatch(SplitLines(source)[k]); m.Some? && Lower(m.value) in LegacyRendererIncludesLower
    ensures IsThreeDCandidate(source, camera3D)
  {
    assert IncludesOneOf(SplitLines(source)[k], ThreeDTriggerIncludesLower);
  }

  // ---------------------------------------------------------------------
  // find_header_insert_index

  /** A line the header scan skips: blank once stripped, a line comment, a
      line that opens or continues a block comment, or an `#info` or
      `#define` directive in any case. */
  predicate IsHeaderLine(line: string) {
    var stripped := Strip(line);
    || stripped == ""
    || StartsWith(stripped, "//")
    || StartsWith(stripped, "/*")
    || StartsWith(stripped, "*")
    || StartsWith(Lower(stripped), "#info")
    || StartsWith(Lower(stripped), "#define")
  }

  /** The end of the run of header lines of `lines` that starts at `i`. */
  function HeaderEnd(lines: seq<string>, i: nat): (r: nat)
    requires i <= |lines|
    ensures i <= r <= |lines|
    ensures forall k :: i <= k < r ==> IsHeaderLine(lines[k])
    ensures r < |lines| ==> !IsHeaderLine(lines[r])
    decreases |lines| - i
  {
    if i == |lines| || !IsHeaderLine(lines[i]) then i
    else
      var r := HeaderEnd(lines, i + 1);
      RunExtends(lines, IsHeaderLine, i, r);
      r
  }

  /** A line with property `p` in front of a run of such lines extends the
      run. */
  lemma RunExtends(lines: seq<string>, p: string -> bool, i: nat, r: nat)
    requires i < r <= |lines| && p(lines[i])
    requires forall k :: i + 1 <= k < r ==> p(lines[k])
    ensures forall k :: i <= k < r ==> p(lines[k])
  {
  }

  /** Where the porter inserts lines: just after the leading header. */
  function HeaderInsertIndex(lines: seq<string>): (r: nat)
    ensures r <= |lines|
    ensures forall k :: 0 <= k < r ==> IsHeaderLine(lines[k])
    ensures r < |lines| ==> !IsHeaderLine(lines[r])
  {
    HeaderEnd(lines, 0)
  }

  /** The header end is the only position with the three properties. */
  lemma HeaderInsertIndexUnique(lines: seq<string>, r: nat)
    requires r <= |lines|
    requires forall k :: 0 <= k < r ==> IsHeaderLine(lines[k])
    requires r < |lines| ==> !IsHeaderLine(lines[r])
    ensures HeaderInsertIndex(lines) == r
  {
  }

  /** `find_header_insert_index`: advances past blank, comment, `#info`
      and `#define` lines. */
  method FindHeaderInsertIndex(lines: seq<string>) returns (idx: nat)
    ensures idx == HeaderInsertIndex(lines)
  {
    idx := 0;
    while idx < |lines|
      invariant idx <= |lines|
      invariant HeaderEnd(lines, idx) == HeaderEnd(lines, 0)
      decreases |lines| - idx
    {
      var stripped := Strip(lines[idx]);
      if stripped == "" {
        idx := idx + 1;
        continue;
      }
      if StartsWith(stripped, "//") {
        idx := idx + 1;
        continue;
      }
      if StartsWith(stripped, "/*") || StartsWith(stripped, "*") {
        idx := idx + 1;
        continue;
      }
      if StartsWith(Lower(stripped), "#info") {
        idx := idx + 1;
        continue;
      }
      if StartsWith(Lower(stripped), "#define") {
        idx := idx + 1;
        continue;
      }
      break;
    }
  }
}
