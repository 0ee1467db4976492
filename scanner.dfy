/** The character scanner of the fragment beautifier
    (`strip_comments_for_braces`): it walks one line, keeps string literals,
    drops line and block comments, and threads an "inside block comment"
    flag from one line to the next. */
module Scanner {
  import opened Wrappers

  /** The three mutually exclusive states of the scanner. A string literal
      remembers its opening quote and whether the previous character was an
      unconsumed backslash. */
  datatype Mode = Code | BlockComment | Quoted(quote: char, escaped: bool)

  /** The code-only projection of a line and the block-comment flag carried
      to the next line. */
  datatype Projection = Projection(code: string, inBlockComment: bool)

  predicate IsQuote(c: char) {
    c == '\'' || c == '"'
  }

  /** A block-comment opener (slash, star) starts at position `i`. */
  predicate OpensAt(line: string, i: int) {
    0 <= i && i + 1 < |line| && line[i] == '/' && line[i + 1] == '*'
  }

  /** A block-comment closer (star, slash) starts at position `i`. */
  predicate ClosesAt(line: string, i: int) {
    0 <= i && i + 1 < |line| && line[i] == '*' && line[i + 1] == '/'
  }

  /** `//` starts at position `i`. */
  predicate LineCommentAt(line: string, i: int) {
    0 <= i && i + 1 < |line| && line[i] == '/' && line[i + 1] == '/'
  }

  /** What the scanner does at one position: stop (a line comment starts),
      or move `width` characters ahead into mode `next`, appending
      `emitted` to the projection. */
  datatype Step = Stop | Advance(width: nat, next: Mode, emitted: string)

  function StepAt(line: string, i: nat, mode: Mode): (s: Step)
    requires i < |line|
    ensures s.Advance? ==> 1 <= s.width && i + s.width <= |line|
    ensures s.Advance? ==> s.emitted == [] || s.emitted == [line[i]]
  {
    var ch := line[i];
    match mode
    case BlockComment =>
      if ClosesAt(line, i) then Advance(2, Code, "") else Advance(1, BlockComment, "")
    case Quoted(q, escaped) =>
      var next :=
        if escaped then Quoted(q, false)
        else if ch == '\\' then Quoted(q, true)
        else if ch == q then Code
        else mode;
      Advance(1, next, [ch])
    case Code =>
      if IsQuote(ch) then Advance(1, Quoted(ch, false), [ch])
      else if LineCommentAt(line, i) then Stop
      else if OpensAt(line, i) then Advance(2, BlockComment, "")
      else Advance(1, Code, [ch])
  }

  /** The scanner from position `i` on: `acc` is the projection of
      `line[..i]` and `mode` the state reached there. A line comment ends
      the scan in code, so the flag it returns is clear. */
  function ScanFrom(line: string, i: nat, mode: Mode, acc: string): Projection
    requires i <= |line|
    decreases |line| - i
  {
    if i == |line| then Projection(acc, mode.BlockComment?)
    else
      match StepAt(line, i, mode)
      case Stop => Projection(acc, false)
      case Advance(width, next, emitted) => ScanFrom(line, i + width, next, acc + emitted)
  }

  /** The projection of a whole line entered with the given flag. */
  function Scan(line: string, inBlockComment: bool): Projection {
    ScanFrom(line, 0, if inBlockComment then BlockComment else Code, [])
  }

  /** `pos` lists, in increasing order, positions of `b` that hold the
      characters of `a`. */
  predicate Embeds(pos: seq<nat>, a: string, b: string) {
    && |pos| == |a|
    && (forall k :: 0 <= k < |pos| ==> pos[k] < |b| && a[k] == b[pos[k]])
    && (forall k, l :: 0 <= k < l < |pos| ==> pos[k] < pos[l])
  }

  /** `a` can be obtained from `b` by deleting characters. */
  ghost predicate IsSubsequence(a: string, b: string) {
    exists pos :: Embeds(pos, a, b)
  }

  lemma {:induction false} EmbedsAtLeastIndex(pos: seq<nat>, a: string, b: string, k: nat)
    requires Embeds(pos, a, b) && k < |pos|
    ensures pos[k] >= k
  {
    if k > 0 {
      EmbedsAtLeastIndex(pos, a, b, k - 1);
    }
  }

  /** A subsequence is never longer than the text it is taken from. */
  lemma SubsequenceNoLonger(a: string, b: string)
    requires IsSubsequence(a, b)
    ensures |a| <= |b|
  {
    var pos :| Embeds(pos, a, b);
    if |a| > 0 {
      EmbedsAtLeastIndex(pos, a, b, |a| - 1);
    }
  }

  function ModeOf(inBlockComment: bool, inString: Option<char>, escape: bool): Mode {
    if inBlockComment then BlockComment
    else if inString.Some? then Quoted(inString.value, escape)
    else Code
  }

  /** Whatever the scanner appends comes from the line, in order: the
      projection is a subsequence of the line. */
  lemma {:induction false} ScanFromSubsequence(line: string, i: nat, mode: Mode, acc: string, pos: seq<nat>)
    requires i <= |line| && Embeds(pos, acc, line)
    requires forall k :: 0 <= k < |pos| ==> pos[k] < i
    ensures IsSubsequence(ScanFrom(line, i, mode, acc).code, line)
    decreases |line| - i
  {
    if i == |line| {
      assert Embeds(pos, acc, line);
    } else {
      match StepAt(line, i, mode)
      case Stop =>
        assert Embeds(pos, acc, line);
      case Advance(width, next, emitted) =>
        if emitted == [] {
          assert acc + emitted == acc;
          ScanFromSubsequence(line, i + width, next, acc, pos);
        } else {
          ScanFromSubsequence(line, i + width, next, acc + emitted, pos + [i]);
        }
    }
  }

  /** `strip_comments_for_braces`: the projection is the one `Scan` defines,
      and it keeps characters of the line in their order, so it is never
      longer than the line. */
  method StripCommentsForBraces(line: string, inBlockComment: bool) returns (code: string, nextInBlockComment: bool)
    ensures Projection(code, nextInBlockComment) == Scan(line, inBlockComment)
    ensures IsSubsequence(code, line)
  {
    var out: string := [];
    var i := 0;
    var n := |line|;
    var inString: Option<char> := None;
    var escape := false;
    var inBlock := inBlockComment;
    while i < n
      invariant 0 <= i <= n
      invariant inBlock ==> inString.None?
      invariant inString.None? ==> !escape
      invariant ScanFrom(line, i, ModeOf(inBlock, inString, escape), out) == Scan(line, inBlockComment)
    {
      var ch := line[i];
      if inBlock {
        assert out + [] == out;
        if ch == '*' && i + 1 < n && line[i + 1] == '/' {
          inBlock := false;
          i := i + 2;
          continue;
        }
        i := i + 1;
        continue;
      }
      if inString.Some? {
        out := out + [ch];
        if escape {
          escape := false;
        } else if ch == '\\' {
          escape := true;
        } else if ch == inString.value {
          inString := None;
        }
        i := i + 1;
        continue;
      }
      if ch == '\'' || ch == '"' {
        inString := Some(ch);
        out := out + [ch];
        i := i + 1;
        continue;
      }
      if ch == '/' && i + 1 < n && line[i + 1] == '/' {
        break;
      }
      if ch == '/' && i + 1 < n && line[i + 1] == '*' {
        assert out + [] == out;
        inBlock := true;
        i := i + 2;
        continue;
      }
      out := out + [ch];
      i := i + 1;
    }
    code, nextInBlockComment := out, inBlock;
    ScanFromSubsequence(line, 0, if inBlockComment then BlockComment else Code, [], []);
  }

  /** Inside a block comment with no closer ahead, nothing more is projected
      and the flag stays set. */
  lemma {:induction false} StaysInBlockComment(line: string, i: nat, acc: string)
    requires i <= |line|
    requires forall j :: i <= j < |line| ==> !ClosesAt(line, j)
    ensures ScanFrom(line, i, BlockComment, acc) == Projection(acc, true)
    decreases |line| - i
  {
    if i < |line| {
      assert acc + [] == acc;
      StaysInBlockComment(line, i + 1, acc);
    }
  }

  /** A line entered inside a block comment and holding no closer projects to
      nothing and leaves the flag set. */
  lemma UnclosedCommentLine(line: string)
    requires forall j :: 0 <= j < |line| ==> !ClosesAt(line, j)
    ensures Scan(line, true) == Projection("", true)
  {
    StaysInBlockComment(line, 0, "");
  }

  /** An opener in code with no closer after it drops the rest of the line and
      sets the flag. */
  lemma OpenCommentSetsFlag(line: string, i: nat, acc: string)
    requires OpensAt(line, i)
    requires forall j :: i + 2 <= j < |line| ==> !ClosesAt(line, j)
    ensures ScanFrom(line, i, Code, acc) == Projection(acc, true)
  {
    assert acc + [] == acc;
    StaysInBlockComment(line, i + 2, acc);
  }

  /** Inside a block comment everything up to the first closer is dropped and
      scanning resumes in code right after that closer. */
  lemma {:induction false} SkipsToCommentEnd(line: string, i: nat, k: nat, acc: string)
    requires i <= k && ClosesAt(line, k)
    requires forall j :: i <= j < k ==> !ClosesAt(line, j)
    ensures ScanFrom(line, i, BlockComment, acc) == ScanFrom(line, k + 2, Code, acc)
    decreases k - i
  {
    assert acc + [] == acc;
    if i < k {
      SkipsToCommentEnd(line, i + 1, k, acc);
    }
  }

  /** A block comment opened and closed on one line contributes nothing, and the
      scan goes on in code on the same line. */
  lemma CommentResumesCode(line: string, i: nat, k: nat, acc: string)
    requires OpensAt(line, i) && i + 2 <= k && ClosesAt(line, k)
    requires forall j :: i + 2 <= j < k ==> !ClosesAt(line, j)
    ensures ScanFrom(line, i, Code, acc) == ScanFrom(line, k + 2, Code, acc)
  {
    assert acc + [] == acc;
    SkipsToCommentEnd(line, i + 2, k, acc);
  }

  /** The inside of a literal opened by `q`: every backslash escapes the
      next character, and no unescaped `q` occurs. Braces, `//` and
      block-comment openers are all allowed. */
  predicate LiteralBody(s: string, q: char)
    decreases |s|
  {
    s == [] ||
    (s[0] == '\\' && |s| >= 2 && LiteralBody(s[2..], q)) ||
    (s[0] != '\\' && s[0] != q && LiteralBody(s[1..], q))
  }

  /** Every character of a literal body is copied to the projection, and
      the scanner is still inside the literal afterwards. */
  lemma {:induction false} CopiesLiteralBody(line: string, i: nat, j: nat, q: char, acc: string)
    requires i <= j <= |line| && LiteralBody(line[i..j], q)
    ensures ScanFrom(line, i, Quoted(q, false), acc) == ScanFrom(line, j, Quoted(q, false), acc + line[i..j])
    decreases j - i
  {
    var s := line[i..j];
    if i == j {
      assert acc + line[i..j] == acc;
    } else if s[0] == '\\' && |s| >= 2 && LiteralBody(s[2..], q) {
      assert s[2..] == line[i + 2..j];
      assert ScanFrom(line, i, Quoted(q, false), acc) == ScanFrom(line, i + 1, Quoted(q, true), acc + [line[i]]);
      assert acc + [line[i]] + [line[i + 1]] == acc + [line[i], line[i + 1]];
      CopiesLiteralBody(line, i + 2, j, q, acc + [line[i], line[i + 1]]);
      assert acc + [line[i], line[i + 1]] + line[i + 2..j] == acc + line[i..j];
    } else {
      assert s[1..] == line[i + 1..j];
      CopiesLiteralBody(line, i + 1, j, q, acc + [line[i]]);
      assert acc + [line[i]] + line[i + 1..j] == acc + line[i..j];
    }
  }

  /** A complete quoted literal in code is copied verbatim, quotes
      included, and scanning goes on in code after its closing quote. */
  lemma CopiesQuotedLiteral(line: string, i: nat, j: nat, acc: string)
    requires i < j < |line| && IsQuote(line[i]) && line[j] == line[i]
    requires LiteralBody(line[i + 1..j], line[i])
    ensures ScanFrom(line, i, Code, acc) == ScanFrom(line, j + 1, Code, acc + line[i..j + 1])
  {
    var q := line[i];
    CopiesLiteralBody(line, i + 1, j, q, acc + [q]);
    assert acc + [q] + line[i + 1..j] + [q] == acc + line[i..j + 1];
  }

  /** Code with no quote and no slash. */
  predicate PlainCode(s: string) {
    forall j :: 0 <= j < |s| ==> !IsQuote(s[j]) && s[j] != '/'
  }

  /** Plain code is copied to the projection unchanged. */
  lemma {:induction false} CopiesPlainCode(line: string, i: nat, j: nat, acc: string)
    requires i <= j <= |line| && PlainCode(line[i..j])
    ensures ScanFrom(line, i, Code, acc) == ScanFrom(line, j, Code, acc + line[i..j])
    decreases j - i
  {
    if i == j {
      assert acc + line[i..j] == acc;
    } else {
      assert line[i..j][0] == line[i];
      assert line[i..j][1..] == line[i + 1..j];
      CopiesPlainCode(line, i + 1, j, acc + [line[i]]);
      assert acc + [line[i]] + line[i + 1..j] == acc + line[i..j];
    }
  }

  /** A `//` after plain code ends the scan: the projection is the code
      before it and nothing at or after it, and the flag is clear. */
  lemma LineCommentEndsScan(line: string, k: nat)
    requires LineCommentAt(line, k) && PlainCode(line[..k])
    ensures Scan(line, false) == Projection(line[..k], false)
  {
    assert line[0..k] == line[..k];
    CopiesPlainCode(line, 0, k, []);
    assert [] + line[..k] == line[..k];
  }

  /** A `//` met in code ends the scan wherever it stands: nothing at or
      after it is projected and the flag is returned clear. */
  lemma LineCommentAnywhere(line: string, i: nat, acc: string)
    requires LineCommentAt(line, i)
    ensures ScanFrom(line, i, Code, acc) == Projection(acc, false)
  {
  }
}
