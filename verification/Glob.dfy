/** Path patterns of artifact declarations: `**` stands for any run of segments, every
    other pattern segment for one segment. How one pattern segment matches one path
    segment (`path.Match`) is a parameter. */
module Glob {
  import opened Text

  /** Whether a pattern segment matches a path segment; a malformed one matches nothing. */
  type SegmentMatch = (string, string) -> bool

  const ANY_RUN := "**"

  // ---------------------------------------------------------------------------
  // The matcher

  /** `matchSegments`, as a recursive predicate. */
  predicate Matches(m: SegmentMatch, patterns: seq<string>, segs: seq<string>)
    decreases |patterns|
  {
    if patterns == [] then segs == []
    else if patterns[0] == ANY_RUN then
      exists i :: 0 <= i <= |segs| && Matches(m, patterns[1..], segs[i..])
    else
      segs != [] && m(patterns[0], segs[0]) && Matches(m, patterns[1..], segs[1..])
  }

  /** The backtracking search of `matchSegments`, with its shortcut for a final `**`. */
  method MatchSegments(m: SegmentMatch, patterns: seq<string>, segs: seq<string>) returns (matched: bool)
    ensures matched <==> Matches(m, patterns, segs)
    decreases |patterns|
  {
    if |patterns| == 0 { return |segs| == 0; }
    var head := patterns[0];
    if head == ANY_RUN {
      if |patterns| == 1 {
        assert segs[|segs|..] == [] && patterns[1..] == [];
        return true;
      }
      var i := 0;
      while i <= |segs|
        invariant 0 <= i <= |segs| + 1
        invariant forall k :: 0 <= k < i ==> !Matches(m, patterns[1..], segs[k..])
      {
        var rest := MatchSegments(m, patterns[1..], segs[i..]);
        if rest { return true; }
        i := i + 1;
      }
      return false;
    }
    if |segs| == 0 { return false; }
    if !m(head, segs[0]) { return false; }
    matched := MatchSegments(m, patterns[1..], segs[1..]);
  }

  /** `matchPathPattern` */
  predicate MatchesPath(m: SegmentMatch, pattern: string, relPath: string) {
    Matches(m, Split(pattern, '/'), Split(relPath, '/'))
  }

  // ---------------------------------------------------------------------------
  // What a match means

  function Flatten(parts: seq<seq<string>>): seq<string> {
    if parts == [] then [] else parts[0] + Flatten(parts[1..])
  }

  /** A part of the path taken by one pattern segment. */
  predicate Takes(m: SegmentMatch, pattern: string, part: seq<string>) {
    pattern == ANY_RUN || (|part| == 1 && m(pattern, part[0]))
  }

  /** The path is cut into one part per pattern segment. */
  ghost predicate Divides(m: SegmentMatch, patterns: seq<string>, segs: seq<string>, parts: seq<seq<string>>) {
    && |parts| == |patterns| && Flatten(parts) == segs
    && forall i :: 0 <= i < |parts| ==> Takes(m, patterns[i], parts[i])
  }

  lemma {:induction false} MatchDivides(m: SegmentMatch, patterns: seq<string>, segs: seq<string>) returns (parts: seq<seq<string>>)
    requires Matches(m, patterns, segs)
    ensures Divides(m, patterns, segs, parts)
    decreases |patterns|
  {
    if patterns == [] {
      parts := [];
    } else {
      var i := 1;
      if patterns[0] == ANY_RUN { i :| 0 <= i <= |segs| && Matches(m, patterns[1..], segs[i..]); }
      var rest := MatchDivides(m, patterns[1..], segs[i..]);
      parts := [segs[..i]] + rest;
      DividesCons(m, patterns, segs, i, rest);
    }
  }

  lemma DividesCons(m: SegmentMatch, patterns: seq<string>, segs: seq<string>, i: nat, rest: seq<seq<string>>)
    requires patterns != [] && i <= |segs| && Takes(m, patterns[0], segs[..i])
    requires Divides(m, patterns[1..], segs[i..], rest)
    ensures Divides(m, patterns, segs, [segs[..i]] + rest)
  {
    var parts := [segs[..i]] + rest;
    assert parts[1..] == rest;
    assert segs[..i] + segs[i..] == segs;
    forall k | 0 <= k < |parts| ensures Takes(m, patterns[k], parts[k]) {
      if k > 0 { assert parts[k] == rest[k - 1] && patterns[k] == patterns[1..][k - 1]; }
    }
  }

  lemma {:induction false} DividesMatch(m: SegmentMatch, patterns: seq<string>, segs: seq<string>, parts: seq<seq<string>>)
    requires Divides(m, patterns, segs, parts)
    ensures Matches(m, patterns, segs)
    decreases |patterns|
  {
    if patterns != [] {
      var i := |parts[0]|;
      DividesTail(m, patterns, segs, parts);
      DividesMatch(m, patterns[1..], segs[i..], parts[1..]);
      assert Takes(m, patterns[0], parts[0]);
      assert parts[0] == segs[..i];
    }
  }

  lemma DividesTail(m: SegmentMatch, patterns: seq<string>, segs: seq<string>, parts: seq<seq<string>>)
    requires Divides(m, patterns, segs, parts) && patterns != []
    ensures |parts[0]| <= |segs| && parts[0] == segs[..|parts[0]|]
    ensures Divides(m, patterns[1..], segs[|parts[0]|..], parts[1..])
  {
    assert segs == parts[0] + Flatten(parts[1..]);
    forall k | 0 <= k < |parts| - 1 ensures Takes(m, patterns[1..][k], parts[1..][k]) {
      assert Takes(m, patterns[k + 1], parts[k + 1]);
    }
  }

  /** The matcher accepts a path exactly when the path can be cut into consecutive
      parts, one per pattern segment: any run for `**`, one matching segment for
      every other. */
  lemma MatchMeaning(m: SegmentMatch, patterns: seq<string>, segs: seq<string>)
    ensures Matches(m, patterns, segs) <==> exists parts :: Divides(m, patterns, segs, parts)
  {
    if Matches(m, patterns, segs) {
      var parts := MatchDivides(m, patterns, segs);
    }
    if parts :| Divides(m, patterns, segs, parts) {
      DividesMatch(m, patterns, segs, parts);
    }
  }

  // ---------------------------------------------------------------------------
  // Laws

  /** A pattern in two halves matches a path exactly when some cut of the path matches
      the halves. */
  ghost predicate MatchesCut(m: SegmentMatch, p: seq<string>, q: seq<string>, segs: seq<string>) {
    exists i :: 0 <= i <= |segs| && Matches(m, p, segs[..i]) && Matches(m, q, segs[i..])
  }

  lemma {:induction false} ConcatLaw(m: SegmentMatch, p: seq<string>, q: seq<string>, segs: seq<string>)
    ensures Matches(m, p + q, segs) <==> MatchesCut(m, p, q, segs)
    decreases |p|
  {
    if p == [] {
      assert p + q == q && segs[..0] == [] && segs[0..] == segs;
      assert forall i :: 0 <= i <= |segs| && Matches(m, p, segs[..i]) ==> i == 0;
    } else if p[0] == ANY_RUN {
      ConcatRun(m, p, q, segs);
    } else {
      ConcatOne(m, p, q, segs);
    }
  }

  lemma {:induction false} ConcatRun(m: SegmentMatch, p: seq<string>, q: seq<string>, segs: seq<string>)
    requires p != [] && p[0] == ANY_RUN
    ensures Matches(m, p + q, segs) <==> MatchesCut(m, p, q, segs)
    decreases |p|, 0
  {
    assert (p + q)[1..] == p[1..] + q && (p + q)[0] == p[0];
    if Matches(m, p + q, segs) {
      var i :| 0 <= i <= |segs| && Matches(m, p[1..] + q, segs[i..]);
      ConcatLaw(m, p[1..], q, segs[i..]);
      var j :| 0 <= j <= |segs[i..]| && Matches(m, p[1..], segs[i..][..j]) && Matches(m, q, segs[i..][j..]);
      assert segs[i..][j..] == segs[i + j..] && segs[..i + j][i..] == segs[i..][..j];
      assert Matches(m, p, segs[..i + j]);
    }
    if MatchesCut(m, p, q, segs) {
      var k :| 0 <= k <= |segs| && Matches(m, p, segs[..k]) && Matches(m, q, segs[k..]);
      var i :| 0 <= i <= k && Matches(m, p[1..], segs[..k][i..]);
      assert segs[..k][i..] == segs[i..][..k - i] && segs[i..][k - i..] == segs[k..];
      ConcatLaw(m, p[1..], q, segs[i..]);
      assert MatchesCut(m, p[1..], q, segs[i..]);
      assert Matches(m, (p + q)[1..], segs[i..]);
    }
  }

  lemma {:induction false} ConcatOne(m: SegmentMatch, p: seq<string>, q: seq<string>, segs: seq<string>)
    requires p != [] && p[0] != ANY_RUN
    ensures Matches(m, p + q, segs) <==> MatchesCut(m, p, q, segs)
    decreases |p|, 0
  {
    assert (p + q)[1..] == p[1..] + q && (p + q)[0] == p[0];
    if segs != [] {
      ConcatLaw(m, p[1..], q, segs[1..]);
      if MatchesCut(m, p[1..], q, segs[1..]) && m(p[0], segs[0]) {
        var j :| 0 <= j <= |segs[1..]| && Matches(m, p[1..], segs[1..][..j]) && Matches(m, q, segs[1..][j..]);
        assert segs[..j + 1][1..] == segs[1..][..j] && segs[1..][j..] == segs[j + 1..];
        assert Matches(m, p, segs[..j + 1]);
      }
      if MatchesCut(m, p, q, segs) {
        var k :| 0 <= k <= |segs| && Matches(m, p, segs[..k]) && Matches(m, q, segs[k..]);
        assert k > 0 && segs[..k][1..] == segs[1..][..k - 1] && segs[1..][k - 1..] == segs[k..];
      }
    }
  }

  /** Any path matches a run. */
  lemma RunMatchesAll(m: SegmentMatch, segs: seq<string>)
    ensures Matches(m, [ANY_RUN], segs)
  {
    assert [ANY_RUN][1..] == [] && segs[|segs|..] == [];
  }

  lemma TwoRuns(m: SegmentMatch, segs: seq<string>)
    ensures Matches(m, [ANY_RUN, ANY_RUN], segs)
  {
    assert [ANY_RUN, ANY_RUN][1..] == [ANY_RUN] && segs[0..] == segs;
    RunMatchesAll(m, segs);
  }

  /** Repeated `**` are one `**`, wherever they stand in a pattern. */
  lemma RunsCollapse(m: SegmentMatch, p: seq<string>, q: seq<string>, segs: seq<string>)
    ensures Matches(m, p + ([ANY_RUN, ANY_RUN] + q), segs) <==> Matches(m, p + ([ANY_RUN] + q), segs)
  {
    ConcatLaw(m, p, [ANY_RUN, ANY_RUN] + q, segs);
    ConcatLaw(m, p, [ANY_RUN] + q, segs);
    forall i | 0 <= i <= |segs|
      ensures Matches(m, [ANY_RUN, ANY_RUN] + q, segs[i..]) <==> Matches(m, [ANY_RUN] + q, segs[i..])
    {
      ConcatLaw(m, [ANY_RUN, ANY_RUN], q, segs[i..]);
      ConcatLaw(m, [ANY_RUN], q, segs[i..]);
      forall j | 0 <= j <= |segs[i..]|
        ensures Matches(m, [ANY_RUN, ANY_RUN], segs[i..][..j]) && Matches(m, [ANY_RUN], segs[i..][..j])
      {
        TwoRuns(m, segs[i..][..j]);
        RunMatchesAll(m, segs[i..][..j]);
      }
    }
  }
}
