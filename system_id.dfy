/** `make_system_id`: the manifest id of a ported example. Each segment of
    the example's path becomes a slug; the slugs, under `fragmentarium/`,
    form the base id, and a numeric suffix makes it unique among the ids
    handed out so far. */
module SystemId {
  import opened Text

  const Prefix := "fragmentarium/"

  /** The slug of a segment that has no letter or digit at all. */
  const Fallback := "item"

  // ---------------------------------------------------------------------
  // Slugs

  /** The characters `[a-z0-9]` a slug keeps. */
  predicate IsSlugChar(c: char) {
    'a' <= c <= 'z' || '0' <= c <= '9'
  }

  /** `re.sub(r"[^a-z0-9]+", "-", s)`: every maximal run of other
      characters becomes one dash. `inRun` says whether the character
      before `s` was already replaced. */
  function DashRuns(s: string, inRun: bool): string
    decreases |s|
  {
    if s == [] then []
    else if IsSlugChar(s[0]) then [s[0]] + DashRuns(s[1..], false)
    else if inRun then DashRuns(s[1..], true)
    else ['-'] + DashRuns(s[1..], true)
  }

  /** Letters, digits and dashes, never two dashes in a row. */
  predicate IsDashed(t: string) {
    && (forall i :: 0 <= i < |t| ==> IsSlugChar(t[i]) || t[i] == '-')
    && (forall i :: 0 <= i < |t| - 1 ==> t[i] != '-' || t[i + 1] != '-')
  }

  /** What a segment turns into: non-empty, dashed, and neither starting
      nor ending with a dash. */
  predicate IsSlug(t: string) {
    t != [] && IsDashed(t) && t[0] != '-' && t[|t| - 1] != '-'
  }

  /** The slug of one path segment: lower-cased, runs of other characters
      replaced by a dash, dashes stripped from both ends, `item` if nothing
      is left. */
  function Slug(segment: string): string {
    var slug := TrimEnd(TrimStart(DashRuns(Lower(segment), false), Exactly('-')), Exactly('-'));
    if slug == [] then Fallback else slug
  }

  /** The replacement leaves letters, digits and single dashes, and after a
      replaced run it does not start with a dash. */
  lemma {:induction false} DashRunsIsDashed(s: string, inRun: bool)
    ensures IsDashed(DashRuns(s, inRun))
    ensures inRun && DashRuns(s, inRun) != [] ==> DashRuns(s, inRun)[0] != '-'
    decreases |s|
  {
    if s != [] {
      if IsSlugChar(s[0]) {
        DashRunsIsDashed(s[1..], false);
      } else {
        DashRunsIsDashed(s[1..], true);
      }
    }
  }

  /** A stretch of dashed text is dashed. */
  lemma DashedSlice(t: string, lo: nat, hi: nat)
    requires lo <= hi <= |t| && IsDashed(t)
    ensures IsDashed(t[lo..hi])
  {
    var u := t[lo..hi];
    assert forall i :: 0 <= i < |u| ==> u[i] == t[lo + i];
  }

  /** Every slug has the slug shape. */
  lemma SlugIsSlug(segment: string)
    ensures IsSlug(Slug(segment))
  {
    var d := DashRuns(Lower(segment), false);
    DashRunsIsDashed(Lower(segment), false);
    TrimmedIsSlug(d);
    if TrimEnd(TrimStart(d, Exactly('-')), Exactly('-')) == [] {
      FallbackIsSlug();
    }
  }

  /** Dashed text with its end dashes stripped is a slug, unless nothing is
      left. */
  lemma TrimmedIsSlug(d: string)
    requires IsDashed(d)
    ensures var t := TrimEnd(TrimStart(d, Exactly('-')), Exactly('-'));
      t != [] ==> IsSlug(t)
  {
    var u := TrimStart(d, Exactly('-'));
    var t := TrimEnd(u, Exactly('-'));
    if t != [] {
      DashedSlice(d, |d| - |u|, |d|);
      DashedSlice(u, 0, |t|);
      assert t[0] == u[0];
    }
  }

  lemma FallbackIsSlug()
    ensures IsSlug(Fallback)
  {
    assert forall i :: 0 <= i < |Fallback| ==> IsSlugChar(Fallback[i]);
  }

  /** Dashed text is left alone by the replacement. */
  lemma {:induction false} DashRunsKeepsDashed(t: string, inRun: bool)
    requires IsDashed(t)
    requires inRun && t != [] ==> t[0] != '-'
    ensures DashRuns(t, inRun) == t
    decreases |t|
  {
    if t != [] {
      DashedSlice(t, 1, |t|);
      if |t| > 1 {
        assert t[0] != '-' || t[1] != '-';
      }
      DashRunsKeepsDashed(t[1..], !IsSlugChar(t[0]));
    }
  }

  /** A slug is its own slug. */
  lemma SlugOfSlug(t: string)
    requires IsSlug(t)
    ensures Slug(t) == t
  {
    LowerOfLowerCase(t);
    DashRunsKeepsDashed(t, false);
    assert DashRuns(Lower(t), false) == t;
    TrimStartKeeps(t, Exactly('-'));
    TrimEndKeeps(t, Exactly('-'));
  }

  /** Slugging is idempotent. */
  lemma SlugIdempotent(segment: string)
    ensures Slug(Slug(segment)) == Slug(segment)
  {
    SlugIsSlug(segment);
    SlugOfSlug(Slug(segment));
  }

  // ---------------------------------------------------------------------
  // The base id

  /** The segments of a `/`-separated path, empty ones left out. */
  function Segments(path: string): seq<string> {
    NonBlank(Split(path, '/'))
  }

  /** The slug of every segment. */
  function Slugs(segments: seq<string>): (r: seq<string>)
    ensures |r| == |segments|
    ensures forall k :: 0 <= k < |r| ==> r[k] == Slug(segments[k])
  {
    seq(|segments|, k requires 0 <= k < |segments| => Slug(segments[k]))
  }

  /** The id before any suffix: `fragmentarium/` and the slugs joined by `/`. */
  function BaseId(path: string): string {
    Prefix + Join(Slugs(Segments(path)), '/')
  }

  /** The base id names the slugs of the path: splitting what follows the
      prefix at `/` gives them back, each of the slug shape. */
  lemma BaseIdSegments(path: string)
    requires Segments(path) != []
    ensures var slugs := Slugs(Segments(path));
      && StartsWith(BaseId(path), Prefix)
      && Split(BaseId(path)[|Prefix|..], '/') == slugs
      && forall k :: 0 <= k < |slugs| ==> IsSlug(slugs[k])
  {
    var slugs := Slugs(Segments(path));
    forall k | 0 <= k < |slugs| ensures IsSlug(slugs[k]) && '/' !in slugs[k] {
      SlugIsSlug(Segments(path)[k]);
    }
    SplitJoin(slugs, '/');
    assert BaseId(path)[|Prefix|..] == Join(slugs, '/');
  }

  // ---------------------------------------------------------------------
  // Numeric suffixes

  function DigitChar(d: nat): char
    requires d < 10
  {
    ('0' as int + d) as char
  }

  /** The decimal digits of `n` (`str(n)`). */
  function NatToString(n: nat): (s: string)
    ensures s != []
    ensures forall i :: 0 <= i < |s| ==> '0' <= s[i] <= '9'
    decreases n
  {
    if n < 10 then [DigitChar(n)] else NatToString(n / 10) + [DigitChar(n % 10)]
  }

  /** The number a string of decimal digits denotes. */
  function ParseNat(s: string): nat
    requires forall i :: 0 <= i < |s| ==> '0' <= s[i] <= '9'
  {
    if s == [] then 0 else ParseNat(s[..|s| - 1]) * 10 + (s[|s| - 1] as int - '0' as int)
  }

  /** Reading the digits back gives the number. */
  lemma {:induction false} ParseNatToString(n: nat)
    ensures ParseNat(NatToString(n)) == n
    decreases n
  {
    var s := NatToString(n);
    if n >= 10 {
      ParseNatToString(n / 10);
      assert s[..|s| - 1] == NatToString(n / 10);
    }
  }

  /** A candidate id: the base, a dash and the suffix. */
  function Candidate(base: string, n: nat): string {
    base + "-" + NatToString(n)
  }

  /** Different suffixes give different candidates. */
  lemma CandidateInjective(base: string, m: nat, n: nat)
    requires Candidate(base, m) == Candidate(base, n)
    ensures m == n
  {
    assert Candidate(base, m)[|base| + 1..] == NatToString(m);
    assert Candidate(base, n)[|base| + 1..] == NatToString(n);
    ParseNatToString(m);
    ParseNatToString(n);
  }

  /** The candidates with suffixes `2` up to `hi - 1`. */
  ghost function Candidates(base: string, hi: nat): set<string>
    decreases hi
  {
    if hi <= 2 then {} else Candidates(base, hi - 1) + {Candidate(base, hi - 1)}
  }

  lemma {:induction false} CandidatesMembers(base: string, hi: nat, x: string)
    ensures x in Candidates(base, hi) <==> exists k :: 2 <= k < hi && x == Candidate(base, k)
    decreases hi
  {
    if hi > 2 {
      CandidatesMembers(base, hi - 1, x);
    }
  }

  /** There are `hi - 2` of them. */
  lemma {:induction false} CandidatesCount(base: string, hi: nat)
    requires hi >= 2
    ensures |Candidates(base, hi)| == hi - 2
    decreases hi
  {
    if hi > 2 {
      CandidatesCount(base, hi - 1);
      var x := Candidate(base, hi - 1);
      if x in Candidates(base, hi - 1) {
        CandidatesMembers(base, hi - 1, x);
        var k :| 2 <= k < hi - 1 && x == Candidate(base, k);
        CandidateInjective(base, k, hi - 1);
      }
    }
  }

  lemma SubsetCount(a: set<string>, b: set<string>)
    requires a <= b
    ensures |a| <= |b|
  {
    assert b == a + (b - a);
  }

  // ---------------------------------------------------------------------
  // The registry of used ids

  /** The ids handed out so far (`used_ids`). */
  class IdRegistry {
    var ids: set<string>

    constructor ()
      ensures ids == {}
    {
      ids := {};
    }

    /** `make_system_id`: the base id if it is free, otherwise the base
        with the smallest suffix from 2 up that is free; the id is
        recorded as used. */
    method MakeSystemId(relativeNoExt: string) returns (id: string)
      modifies this
      ensures id !in old(ids) && ids == old(ids) + {id}
      ensures var base := BaseId(relativeNoExt);
        || (id == base && base !in old(ids))
        || (&& base in old(ids)
            && exists n :: (2 <= n && id == Candidate(base, n)
                            && forall k :: 2 <= k < n ==> Candidate(base, k) in old(ids)))
    {
      var base := BaseIdOf(relativeNoExt);

      if base !in ids {
        ids := ids + {base};
        return base;
      }

      var suffix := 2;
      while true
        invariant 2 <= suffix && ids == old(ids)
        invariant forall k :: 2 <= k < suffix ==> Candidate(base, k) in ids
        invariant suffix - 2 <= |ids|
        decreases |ids| + 2 - suffix
      {
        var candidate := base + "-" + NatToString(suffix);
        if candidate !in ids {
          ids := ids + {candidate};
          assert candidate == Candidate(base, suffix);
          return candidate;
        }
        CandidatesTaken(base, suffix + 1, ids);
        suffix := suffix + 1;
      }
    }
  }

  /** `make_system_id`: the segments, their slugs and the base id. */
  method BaseIdOf(relativeNoExt: string) returns (base: string)
    ensures base == BaseId(relativeNoExt)
  {
    var segments := Segments(relativeNoExt);
    var normalized := SlugAll(segments);
    base := Prefix + Join(normalized, '/');
  }

  /** `make_system_id`: the loop that slugs each segment. */
  method SlugAll(segments: seq<string>) returns (normalized: seq<string>)
    ensures normalized == Slugs(segments)
  {
    normalized := [];
    for i := 0 to |segments|
      invariant normalized == Slugs(segments[..i])
    {
      assert Slugs(segments[..i + 1]) == Slugs(segments[..i]) + [Slug(segments[i])];
      normalized := normalized + [Slug(segments[i])];
    }
    assert segments[..|segments|] == segments;
  }

  /** When the candidates below `hi` are all taken, there are at least
      `hi - 2` used ids. */
  lemma CandidatesTaken(base: string, hi: nat, ids: set<string>)
    requires hi >= 2
    requires forall k :: 2 <= k < hi ==> Candidate(base, k) in ids
    ensures hi - 2 <= |ids|
  {
    forall x | x in Candidates(base, hi) ensures x in ids {
      CandidatesMembers(base, hi, x);
    }
    CandidatesCount(base, hi);
    SubsetCount(Candidates(base, hi), ids);
  }
}
