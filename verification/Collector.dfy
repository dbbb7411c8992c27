/** Selecting workspace files as artifacts: the declared patterns are normalised, every
    file is credited to the first pattern that matches it, and patterns credited with
    no file are warned about. */
module Collector {
  import opened Text
  import opened Paths
  import opened Sorting
  import opened Glob

  // ---------------------------------------------------------------------------
  // Patterns

  /** `ValidateArtifactPath` on a trimmed path: relative, and naming something inside
      the workspace. */
  predicate ValidTrimmedPath(t: string) {
    && t != "" && !LooksLikeDrive(t) && !HasPrefix(Slashed(t), "/") && !HasPrefix(t, "/")
    && Clean(Slashed(t)) != "." && !LooksUpward(Clean(Slashed(t)))
  }

  predicate ValidArtifactPath(rel: string) { ValidTrimmedPath(Trim(rel)) }

  /** Valid are exactly the paths without a drive that lead strictly below the workspace. */
  lemma ValidPathMeaning(t: string)
    ensures ValidTrimmedPath(t) <==>
            && !LooksLikeDrive(t) && !Parse(Slashed(t)).rooted
            && Parse(Slashed(t)).segs != [] && !Climbs(Parse(Slashed(t)))
  {
    var p := Parse(Slashed(t));
    ParseNormal(Slashed(t));
    DotIsEmpty(p);
    LooksUpwardMeaning(p);
    SlashedFirst(t);
    if t == "" { SplitPlain(Slashed(t), '/'); }
  }

  lemma SlashedFirst(t: string)
    ensures HasPrefix(Slashed(t), "/") <==> t != "" && Slashed(t)[0] == '/'
    ensures HasPrefix(t, "/") ==> HasPrefix(Slashed(t), "/")
  {
    if t != "" { assert Slashed(t)[..1] == [Slashed(t)[0]] && t[..1] == [t[0]]; }
  }

  /** The distinct non-blank trimmed patterns, in order of first appearance. */
  function Normalized(patterns: seq<string>): seq<string> {
    if patterns == [] then []
    else
      var front, last := Normalized(patterns[..|patterns| - 1]), Trim(patterns[|patterns| - 1]);
      if last == "" || last in front then front else front + [last]
  }

  function SetOf(s: seq<string>): set<string> { set x | x in s }

  /** `normalizePatterns`: fails on the first pattern that leaves the workspace. The
      check itself is a parameter here; the collector passes `ValidArtifactPath`. */
  method NormalizePatterns(valid: string -> bool, patterns: seq<string>) returns (r: Result<seq<string>, string>)
    ensures r.Ok? <==> forall p <- patterns :: Trim(p) == "" || valid(Trim(p))
    ensures r.Ok? ==> r.value == Normalized(patterns)
    ensures r.Err? ==> exists p <- patterns :: r.error == Trim(p) && Trim(p) != "" && !valid(Trim(p))
  {
    var normalized: seq<string> := [];
    var seen: set<string> := {};
    var i := 0;
    while i < |patterns|
      invariant 0 <= i <= |patterns|
      invariant normalized == Normalized(patterns[..i]) && forall t :: t in seen <==> t in normalized
      invariant forall p <- patterns[..i] :: Trim(p) == "" || valid(Trim(p))
    {
      TakeMore(patterns, i);
      NormalizedMore(patterns[..i], patterns[i]);
      var trimmed := Trim(patterns[i]);
      if trimmed != "" {
        if !valid(trimmed) {
          assert patterns[i] in patterns;
          return Err(trimmed);
        }
        if trimmed !in seen {
          seen := seen + {trimmed};
          normalized := normalized + [trimmed];
        }
      }
      i := i + 1;
    }
    TakeAll(patterns);
    return Ok(normalized);
  }

  lemma NormalizedMore(front: seq<string>, last: string)
    ensures Normalized(front + [last]) ==
            Normalized(front) + if Trim(last) == "" || Trim(last) in Normalized(front) then [] else [Trim(last)]
  {
    AppendFront(front, last);
  }

  lemma {:induction false} NormalizedMember(patterns: seq<string>, t: string)
    ensures t in Normalized(patterns) <==> t != "" && exists p <- patterns :: Trim(p) == t
    decreases |patterns|
  {
    if patterns != [] {
      NormalizedMember(patterns[..|patterns| - 1], t);
      FrontAndLast(patterns);
    }
  }

  lemma {:induction false} NormalizedDistinct(patterns: seq<string>)
    ensures Distinct(Normalized(patterns))
    decreases |patterns|
  {
    if patterns != [] { NormalizedDistinct(patterns[..|patterns| - 1]); }
  }

  /** Normalising drops blanks and repetitions and nothing else. */
  lemma NormalizedMeaning(patterns: seq<string>)
    ensures Distinct(Normalized(patterns))
    ensures forall t :: t in Normalized(patterns) <==> t != "" && exists p <- patterns :: Trim(p) == t
  {
    NormalizedDistinct(patterns);
    forall t ensures t in Normalized(patterns) <==> t != "" && exists p <- patterns :: Trim(p) == t {
      NormalizedMember(patterns, t);
    }
  }

  // ---------------------------------------------------------------------------
  // Crediting files to patterns

  /** Whether a pattern matches a relative path. */
  type PathMatch = (string, string) -> bool

  function PathMatchOf(m: SegmentMatch): PathMatch { (pattern, rel) => MatchesPath(m, pattern, rel) }

  /** The first pattern that matches a file. */
  function FirstMatch(m: PathMatch, patterns: seq<string>, file: string): Option<string> {
    if patterns == [] then None
    else if m(patterns[0], file) then Some(patterns[0])
    else FirstMatch(m, patterns[1..], file)
  }

  /** How many files a pattern is the first match of. */
  function Credit(m: PathMatch, patterns: seq<string>, files: seq<string>, pattern: string): nat {
    if files == [] then 0
    else
      var front, last := files[..|files| - 1], files[|files| - 1];
      Credit(m, patterns, front, pattern) + if FirstMatch(m, patterns, last) == Some(pattern) then 1 else 0
  }

  lemma {:induction false} FirstMatchMeaning(m: PathMatch, patterns: seq<string>, file: string)
    ensures FirstMatch(m, patterns, file).Some? <==> exists p <- patterns :: m(p, file)
    ensures FirstMatch(m, patterns, file).Some? ==>
              FirstMatch(m, patterns, file).value in patterns && m(FirstMatch(m, patterns, file).value, file)
    ensures forall k :: 0 <= k < |patterns| && FirstMatch(m, patterns, file) == Some(patterns[k]) && Distinct(patterns) ==>
              m(patterns[k], file) && forall j :: 0 <= j < k ==> !m(patterns[j], file)
    decreases |patterns|
  {
    if patterns != [] {
      FirstMatchMeaning(m, patterns[1..], file);
      assert patterns[0] in patterns;
      if !m(patterns[0], file) && Distinct(patterns) {
        var rest := patterns[1..];
        assert Distinct(rest) by {
          forall i, j | 0 <= i < j < |rest| ensures rest[i] != rest[j] { assert patterns[i + 1] != patterns[j + 1]; }
        }
        forall k | 0 <= k < |patterns| && FirstMatch(m, patterns, file) == Some(patterns[k])
          ensures m(patterns[k], file) && forall j :: 0 <= j < k ==> !m(patterns[j], file)
        {
          if k > 0 {
            assert rest[k - 1] == patterns[k];
            forall j | 0 <= j < k ensures !m(patterns[j], file) {
              if j > 0 { assert rest[j - 1] == patterns[j]; }
            }
          }
        }
      }
    }
  }

  // ---------------------------------------------------------------------------
  // The selection loop

  datatype Selection = Selection(
    selected: seq<string>, matched: set<string>, skipped: nat, counts: map<string, nat>, warnings: seq<string>)

  function CountOf(counts: map<string, nat>, pattern: string): nat {
    if pattern in counts then counts[pattern] else 0
  }

  /** The files some pattern matches. */
  function MatchedFiles(m: PathMatch, patterns: seq<string>, files: seq<string>): set<string> {
    set f | f in files && FirstMatch(m, patterns, f).Some?
  }

  /** The patterns credited with nothing, in order. */
  function Uncredited(m: PathMatch, patterns: seq<string>, files: seq<string>, list: seq<string>): seq<string> {
    if list == [] then []
    else
      var front, last := Uncredited(m, patterns, files, list[..|list| - 1]), list[|list| - 1];
      if Credit(m, patterns, files, last) == 0 then front + [last] else front
  }

  /** The state of the walk over the files. */
  datatype Tally = Tally(counts: map<string, nat>, matched: set<string>, chosen: set<string>, skipped: nat)

  ghost predicate Counted(counts: map<string, nat>, m: PathMatch, patterns: seq<string>, files: seq<string>) {
    forall p :: CountOf(counts, p) == Credit(m, patterns, files, p)
  }

  ghost predicate Sifted(t: Tally, matched: set<string>, skip: set<string>) {
    t.matched == matched && t.chosen == matched - skip && |matched| == |t.chosen| + t.skipped
  }

  /** A tally describes the files walked so far. */
  ghost predicate Describes(t: Tally, m: PathMatch, patterns: seq<string>, files: seq<string>, skip: set<string>) {
    Sifted(t, MatchedFiles(m, patterns, files), skip) && Counted(t.counts, m, patterns, files)
  }

  lemma MatchedStep(m: PathMatch, patterns: seq<string>, files: seq<string>, file: string)
    requires file !in files
    ensures MatchedFiles(m, patterns, files + [file]) ==
            MatchedFiles(m, patterns, files) + (if FirstMatch(m, patterns, file).Some? then {file} else {})
    ensures file !in MatchedFiles(m, patterns, files)
  {
  }

  lemma CreditStep(m: PathMatch, patterns: seq<string>, files: seq<string>, file: string, pattern: string)
    ensures Credit(m, patterns, files + [file], pattern) ==
            Credit(m, patterns, files, pattern) + if FirstMatch(m, patterns, file) == Some(pattern) then 1 else 0
  {
    assert (files + [file])[..|files|] == files;
  }

  lemma CountsStep(m: PathMatch, patterns: seq<string>, files: seq<string>, file: string, counts: map<string, nat>)
    requires Counted(counts, m, patterns, files)
    ensures var first := FirstMatch(m, patterns, file);
            Counted(if first.Some? then counts[first.value := CountOf(counts, first.value) + 1] else counts, m, patterns, files + [file])
  {
    var first := FirstMatch(m, patterns, file);
    var next := if first.Some? then counts[first.value := CountOf(counts, first.value) + 1] else counts;
    forall p ensures CountOf(next, p) == Credit(m, patterns, files + [file], p) {
      CreditStep(m, patterns, files, file, p);
    }
  }

  lemma SiftStep(t: Tally, matched: set<string>, skip: set<string>, file: string)
    requires Sifted(t, matched, skip) && file !in matched
    ensures file in skip ==> Sifted(t.(matched := matched + {file}, skipped := t.skipped + 1), matched + {file}, skip)
    ensures file !in skip ==> Sifted(t.(matched := matched + {file}, chosen := t.chosen + {file}), matched + {file}, skip)
  {
  }

  /** The tally after one more file, whose first match this is. */
  function Visited(t: Tally, first: Option<string>, file: string, skip: set<string>): Tally {
    if first.None? then t
    else
      var seen := t.(counts := t.counts[first.value := CountOf(t.counts, first.value) + 1], matched := t.matched + {file});
      if file in skip then seen.(skipped := t.skipped + 1) else seen.(chosen := t.chosen + {file})
  }

  lemma VisitDescribes(m: PathMatch, patterns: seq<string>, files: seq<string>, file: string, skip: set<string>, t: Tally)
    requires Describes(t, m, patterns, files, skip) && file !in files
    ensures Describes(Visited(t, FirstMatch(m, patterns, file), file, skip), m, patterns, files + [file], skip)
  {
    var first := FirstMatch(m, patterns, file);
    CountsStep(m, patterns, files, file, t.counts);
    assert Counted(Visited(t, first, file, skip).counts, m, patterns, files + [file]);
    MatchedStep(m, patterns, files, file);
    VisitSifts(t, MatchedFiles(m, patterns, files), first, file, skip);
  }

  lemma VisitSifts(t: Tally, matched: set<string>, first: Option<string>, file: string, skip: set<string>)
    requires Sifted(t, matched, skip) && file !in matched
    ensures Sifted(Visited(t, first, file, skip), matched + (if first.Some? then {file} else {}), skip)
  {
    SiftStep(t, matched, skip, file);
    assert matched + {} == matched;
  }

  /** The visit of one file. */
  method Visit(m: PathMatch, patterns: seq<string>, ghost files: seq<string>, file: string, skip: set<string>, t: Tally)
    returns (r: Tally)
    requires Describes(t, m, patterns, files, skip) && file !in files
    ensures Describes(r, m, patterns, files + [file], skip)
  {
    var pattern := FindFirst(m, patterns, file);
    VisitDescribes(m, patterns, files, file, skip, t);
    r := t;
    if pattern.Some? {
      r := t.(counts := t.counts[pattern.value := CountOf(t.counts, pattern.value) + 1], matched := t.matched + {file});
      if file in skip { r := r.(skipped := t.skipped + 1); } else { r := r.(chosen := t.chosen + {file}); }
    }
  }

  /** The walk over the files and the reports after it. */
  method Select(m: PathMatch, patterns: seq<string>, files: seq<string>, skip: set<string>) returns (r: Selection)
    requires Distinct(files)
    ensures r.matched == MatchedFiles(m, patterns, files)
    ensures SetOf(r.selected) == r.matched - skip
    ensures Sorted(r.selected, StringLe) && Distinct(r.selected)
    ensures |r.matched| == |r.selected| + r.skipped
    ensures forall p :: CountOf(r.counts, p) == Credit(m, patterns, files, p)
    ensures r.warnings == Uncredited(m, patterns, files, patterns)
  {
    var t := Tally(map[], {}, {}, 0);
    var i := 0;
    while i < |files|
      invariant 0 <= i <= |files| && Describes(t, m, patterns, files[..i], skip)
    {
      TakeMore(files, i);
      t := Visit(m, patterns, files[..i], files[i], skip, t);
      i := i + 1;
    }
    TakeAll(files);
    var warnings := Warn(m, patterns, files, t.counts);
    var selected := SortedList(t.chosen);
    r := Selection(selected, t.matched, t.skipped, t.counts, warnings);
  }

  method FindFirst(m: PathMatch, patterns: seq<string>, file: string) returns (r: Option<string>)
    ensures r == FirstMatch(m, patterns, file)
  {
    var k := 0;
    assert patterns[0..] == patterns;
    while k < |patterns|
      invariant 0 <= k <= |patterns|
      invariant FirstMatch(m, patterns, file) == FirstMatch(m, patterns[k..], file)
    {
      if m(patterns[k], file) { return Some(patterns[k]); }
      assert patterns[k..][1..] == patterns[k + 1..];
      k := k + 1;
    }
    return None;
  }

  method Warn(m: PathMatch, patterns: seq<string>, files: seq<string>, counts: map<string, nat>) returns (warnings: seq<string>)
    requires forall p :: CountOf(counts, p) == Credit(m, patterns, files, p)
    ensures warnings == Uncredited(m, patterns, files, patterns)
  {
    warnings := [];
    var i := 0;
    while i < |patterns|
      invariant 0 <= i <= |patterns| && warnings == Uncredited(m, patterns, files, patterns[..i])
    {
      TakeMore(patterns, i);
      if CountOf(counts, patterns[i]) == 0 { warnings := warnings + [patterns[i]]; }
      i := i + 1;
    }
    TakeAll(patterns);
  }

  /** The members of a set, in whatever order a map is walked. */
  method Listed(chosen: set<string>) returns (list: seq<string>)
    ensures Distinct(list) && SetOf(list) == chosen && |list| == |chosen|
  {
    list := [];
    var todo := chosen;
    while todo != {}
      invariant todo <= chosen && Distinct(list) && SetOf(list) == chosen - todo
      invariant |list| + |todo| == |chosen|
      decreases |todo|
    {
      var f :| f in todo;
      todo := todo - {f};
      AppendedSet(list, f);
      list := list + [f];
    }
    assert chosen - todo == chosen;
  }

  /** The members of a set, sorted. */
  method SortedList(chosen: set<string>) returns (r: seq<string>)
    ensures Sorted(r, StringLe) && Distinct(r) && SetOf(r) == chosen && |r| == |chosen|
  {
    var list := Listed(chosen);
    r := Sort(list, StringLe);
    StringOrder();
    SortSorted(list, StringLe);
    SortPermutes(list, StringLe);
    PermutationMembers(list, r);
    DistinctPermuted(list, r);
  }

  lemma AppendedSet(list: seq<string>, f: string)
    requires Distinct(list)
    ensures SetOf(list + [f]) == SetOf(list) + {f}
    ensures f !in list ==> Distinct(list + [f])
  {
  }

  // ---------------------------------------------------------------------------
  // Conservation

  function Sum(m: PathMatch, patterns: seq<string>, files: seq<string>, list: seq<string>): nat {
    if list == [] then 0
    else Sum(m, patterns, files, list[..|list| - 1]) + Credit(m, patterns, files, list[|list| - 1])
  }

  /** One more file adds one to the sum if its first match is among the patterns listed. */
  lemma {:induction false} SumStep(m: PathMatch, patterns: seq<string>, files: seq<string>, file: string, list: seq<string>)
    requires Distinct(list)
    ensures Sum(m, patterns, files + [file], list) ==
            Sum(m, patterns, files, list)
            + if exists p <- list :: FirstMatch(m, patterns, file) == Some(p) then 1 else 0
    decreases |list|
  {
    assert (files + [file])[..|files|] == files;
    if list != [] {
      var front, last := list[..|list| - 1], list[|list| - 1];
      SumStep(m, patterns, files, file, front);
      assert forall p <- front :: p in list;
      assert last in list && last !in front;
      assert forall p <- list :: p in front || p == last;
    }
  }

  /** The credits of all patterns add up to the matched files. */
  lemma {:induction false} CreditsConserved(m: PathMatch, patterns: seq<string>, files: seq<string>)
    requires Distinct(patterns) && Distinct(files)
    ensures Sum(m, patterns, files, patterns) == |MatchedFiles(m, patterns, files)|
    decreases |files|
  {
    if files == [] {
      NoFilesNoSum(m, patterns, patterns);
    } else {
      var front, last := files[..|files| - 1], files[|files| - 1];
      assert files == front + [last];
      CreditsConserved(m, patterns, front);
      SumStep(m, patterns, front, last, patterns);
      FirstMatchMeaning(m, patterns, last);
      MatchedStep(m, patterns, front, last);
    }
  }

  lemma {:induction false} NoFilesNoSum(m: PathMatch, patterns: seq<string>, list: seq<string>)
    ensures Sum(m, patterns, [], list) == 0
    decreases |list|
  {
    if list != [] { NoFilesNoSum(m, patterns, list[..|list| - 1]); }
  }

  lemma {:induction false} CreditMeaning(m: PathMatch, patterns: seq<string>, files: seq<string>, pattern: string)
    ensures Credit(m, patterns, files, pattern) == 0 <==> forall f <- files :: FirstMatch(m, patterns, f) != Some(pattern)
    decreases |files|
  {
    if files != [] {
      var front, last := files[..|files| - 1], files[|files| - 1];
      CreditMeaning(m, patterns, front, pattern);
      FrontAndLast(files);
      CreditStep(m, patterns, front, last, pattern);
      assert last in files;
    }
  }

  /** A pattern is warned about exactly when it is no file's first match. */
  lemma {:induction false} WarningMeaning(m: PathMatch, patterns: seq<string>, files: seq<string>, list: seq<string>, pattern: string)
    ensures pattern in Uncredited(m, patterns, files, list) <==>
            pattern in list && forall f <- files :: FirstMatch(m, patterns, f) != Some(pattern)
    decreases |list|
  {
    if list != [] {
      WarningMeaning(m, patterns, files, list[..|list| - 1], pattern);
      CreditMeaning(m, patterns, files, list[|list| - 1]);
      FrontAndLast(list);
    }
  }

  lemma {:induction false} FirstMatchAt(m: PathMatch, patterns: seq<string>, file: string, k: nat)
    requires k < |patterns| && m(patterns[k], file) && forall j :: 0 <= j < k ==> !m(patterns[j], file)
    ensures FirstMatch(m, patterns, file) == Some(patterns[k])
    decreases |patterns|
  {
    if k > 0 {
      assert !m(patterns[0], file);
      forall j | 0 <= j < k - 1 ensures !m(patterns[1..][j], file) { assert !m(patterns[j + 1], file); }
      FirstMatchAt(m, patterns[1..], file, k - 1);
    }
  }

  /** Some earlier pattern matches the file. */
  ghost predicate TakenBefore(m: PathMatch, patterns: seq<string>, k: nat, file: string)
    requires k <= |patterns|
  {
    exists j :: 0 <= j < k && m(patterns[j], file)
  }

  /** A pattern is warned about exactly when every file it matches is matched by some
      earlier pattern. */
  lemma WarnedExactly(m: PathMatch, patterns: seq<string>, files: seq<string>, k: nat)
    requires Distinct(patterns) && k < |patterns|
    ensures patterns[k] in Uncredited(m, patterns, files, patterns) <==>
            forall f <- files :: m(patterns[k], f) ==> TakenBefore(m, patterns, k, f)
  {
    WarningMeaning(m, patterns, files, patterns, patterns[k]);
    forall f | f in files
      ensures FirstMatch(m, patterns, f) != Some(patterns[k]) <==> (m(patterns[k], f) ==> TakenBefore(m, patterns, k, f))
    {
      FirstMatchMeaning(m, patterns, f);
      if m(patterns[k], f) && !TakenBefore(m, patterns, k, f) { FirstMatchAt(m, patterns, f, k); }
    }
  }

  /** A later pattern whose files all belong to earlier patterns is warned about although
      it matches files. */
  lemma ShadowedPatternWarned(m: PathMatch, p: string, q: string, file: string)
    requires p != q && m(p, file) && m(q, file)
    ensures q in Uncredited(m, [p, q], [file], [p, q])
  {
    WarningMeaning(m, [p, q], [file], [p, q], q);
  }

  // ---------------------------------------------------------------------------
  // The whole selection

  lemma MatchedMeaning(m: PathMatch, patterns: seq<string>, files: seq<string>, f: string)
    ensures f in MatchedFiles(m, patterns, files) <==> f in files && exists p <- patterns :: m(p, f)
  {
    FirstMatchMeaning(m, patterns, f);
  }

  ghost predicate Selects(m: PathMatch, patterns: seq<string>, files: seq<string>, skip: set<string>, r: Selection) {
    && Sorted(r.selected, StringLe) && Distinct(r.selected)
    && (forall f :: f in r.selected <==> f in files && f !in skip && exists p <- patterns :: m(p, f))
    && Sum(m, patterns, files, patterns) == |r.matched| == |r.selected| + r.skipped
    && (forall p :: CountOf(r.counts, p) == Credit(m, patterns, files, p))
    && (forall p :: p in r.warnings <==> p in patterns && forall f <- files :: FirstMatch(m, patterns, f) != Some(p))
  }

  /** `Collect`, up to the storing of the files. */
  method Collect(m: SegmentMatch, patterns: seq<string>, files: seq<string>, skip: set<string>)
    returns (r: Result<Selection, string>)
    requires Distinct(files)
    ensures r.Ok? <==> forall p <- patterns :: Trim(p) == "" || ValidArtifactPath(Trim(p))
    ensures r.Ok? ==> Selects(PathMatchOf(m), Normalized(patterns), files, skip, r.value)
  {
    r := CollectPaths(ValidArtifactPath, PathMatchOf(m), patterns, files, skip);
  }

  /** What the normalised patterns select, for any check of patterns and any matcher. */
  method CollectPaths(valid: string -> bool, m: PathMatch, patterns: seq<string>, files: seq<string>, skip: set<string>)
    returns (r: Result<Selection, string>)
    requires Distinct(files)
    ensures r.Ok? <==> forall p <- patterns :: Trim(p) == "" || valid(Trim(p))
    ensures r.Ok? ==> Selects(m, Normalized(patterns), files, skip, r.value)
  {
    var normalized := NormalizePatterns(valid, patterns);
    if normalized.Err? { return Err(normalized.error); }
    NormalizedDistinct(patterns);
    if normalized.value == [] {
      r := Ok(NOTHING);
      NothingSelected(m, files, skip);
    } else {
      var selection := Select(m, normalized.value, files, skip);
      SelectionMeaning(m, normalized.value, files, skip, selection);
      r := Ok(selection);
    }
  }

  const NOTHING := Selection([], {}, 0, map[], [])

  lemma NothingSelected(m: PathMatch, files: seq<string>, skip: set<string>)
    ensures Selects(m, [], files, skip, NOTHING)
  {
    NothingCredited(m, files);
  }

  lemma {:induction false} NothingCredited(m: PathMatch, files: seq<string>)
    ensures forall p :: Credit(m, [], files, p) == 0
    decreases |files|
  {
    if files != [] { NothingCredited(m, files[..|files| - 1]); }
  }

  lemma SelectionMeaning(m: PathMatch, patterns: seq<string>, files: seq<string>, skip: set<string>, r: Selection)
    requires Distinct(patterns) && Distinct(files)
    requires r.matched == MatchedFiles(m, patterns, files) && SetOf(r.selected) == r.matched - skip
    requires Sorted(r.selected, StringLe) && Distinct(r.selected) && |r.matched| == |r.selected| + r.skipped
    requires forall p :: CountOf(r.counts, p) == Credit(m, patterns, files, p)
    requires r.warnings == Uncredited(m, patterns, files, patterns)
    ensures Selects(m, patterns, files, skip, r)
  {
    CreditsConserved(m, patterns, files);
    SelectedMeaning(m, patterns, files, skip, r.selected);
    WarningsMeaning(m, patterns, files);
  }

  lemma SelectedMeaning(m: PathMatch, patterns: seq<string>, files: seq<string>, skip: set<string>, selected: seq<string>)
    requires SetOf(selected) == MatchedFiles(m, patterns, files) - skip
    ensures forall f :: f in selected <==> f in files && f !in skip && exists p <- patterns :: m(p, f)
  {
    forall f ensures f in selected <==> f in files && f !in skip && exists p <- patterns :: m(p, f) {
      MemberOfSet(selected, f);
      MatchedMeaning(m, patterns, files, f);
    }
  }

  lemma MemberOfSet(s: seq<string>, f: string)
    ensures f in s <==> f in SetOf(s)
  {
  }

  lemma WarningsMeaning(m: PathMatch, patterns: seq<string>, files: seq<string>)
    ensures forall p :: p in Uncredited(m, patterns, files, patterns) <==>
              p in patterns && forall f <- files :: FirstMatch(m, patterns, f) != Some(p)
  {
    forall p
      ensures p in Uncredited(m, patterns, files, patterns) <==>
              p in patterns && forall f <- files :: FirstMatch(m, patterns, f) != Some(p)
    {
      WarningMeaning(m, patterns, files, patterns, p);
    }
  }
}
