/** The lexical path algebra of Go's `path` and `path/filepath` packages on a
    system whose separator is `/`, as a machine over a stack of segments, and the
    two containment checks the cache builds on it. */
module Paths {
  import opened Text

  /** A lexical path: absolute or not, and its cleaned segments. */
  datatype Path = Path(rooted: bool, segs: seq<string>)

  // ---------------------------------------------------------------------------
  // Clean

  /** What one segment does to the stack of segments kept so far. */
  function Push(rooted: bool, stack: seq<string>, seg: string): seq<string> {
    if seg == "" || seg == "." then stack
    else if seg == ".." then
      if stack != [] && stack[|stack| - 1] != ".." then stack[..|stack| - 1]
      else if rooted then stack
      else stack + [seg]
    else stack + [seg]
  }

  function PushAll(rooted: bool, stack: seq<string>, segs: seq<string>): seq<string>
    decreases |segs|
  {
    if segs == [] then stack else PushAll(rooted, Push(rooted, stack, segs[0]), segs[1..])
  }

  function Parse(s: string): Path {
    var rooted := s != [] && s[0] == '/';
    Path(rooted, PushAll(rooted, [], Split(s, '/')))
  }

  function Render(p: Path): string {
    if p.rooted then "/" + Join(p.segs, '/')
    else if p.segs == [] then "."
    else Join(p.segs, '/')
  }

  /** `filepath.Clean` */
  function Clean(s: string): string { Render(Parse(s)) }

  /** `filepath.Join`: empty leading elements are ignored. */
  function JoinPath(elems: seq<string>): string {
    if elems == [] then ""
    else if elems[0] == "" then JoinPath(elems[1..])
    else Clean(Join(elems, '/'))
  }

  /** `filepath.Dir`, on a cleaned path. */
  function Parent(p: Path): Path {
    if p.segs == [] then p else p.(segs := p.segs[..|p.segs| - 1])
  }

  // ---------------------------------------------------------------------------
  // Normal forms

  /** A segment that names something: not empty, no separator, not a dot. */
  predicate Segment(s: string) { s != "" && s != "." && '/' !in s }

  /** A segment that names an entry of a directory. */
  predicate Name(s: string) { Segment(s) && s != ".." }

  predicate Names(segs: seq<string>) { forall s <- segs :: Name(s) }

  /** What cleaning leaves: segments only, and `..` only in front of a relative path. */
  ghost predicate Normal(p: Path) {
    && (forall s <- p.segs :: Segment(s))
    && (forall i :: 0 <= i < |p.segs| && p.segs[i] == ".." ==>
          !p.rooted && (i == 0 || p.segs[i - 1] == ".."))
  }

  lemma {:induction false} PushAllNormal(rooted: bool, stack: seq<string>, segs: seq<string>)
    requires Normal(Path(rooted, stack))
    requires forall s <- segs :: '/' !in s
    ensures Normal(Path(rooted, PushAll(rooted, stack, segs)))
    decreases |segs|
  {
    if segs != [] {
      assert segs[0] in segs;
      PushAllNormal(rooted, Push(rooted, stack, segs[0]), segs[1..]);
    }
  }

  lemma ParseNormal(s: string)
    ensures Normal(Parse(s))
  {
    var p := Parse(s);
    SplitPartsPlain(s, '/');
    PushAllNormal(p.rooted, [], Split(s, '/'));
  }

  lemma {:induction false} PushAllConcat(rooted: bool, stack: seq<string>, a: seq<string>, b: seq<string>)
    ensures PushAll(rooted, stack, a + b) == PushAll(rooted, PushAll(rooted, stack, a), b)
    decreases |a|
  {
    if a == [] {
      assert a + b == b;
    } else {
      assert (a + b)[1..] == a[1..] + b;
      PushAllConcat(rooted, Push(rooted, stack, a[0]), a[1..], b);
    }
  }

  /** Segments that keep the stack normal are all kept. */
  lemma {:induction false} PushAllKeeps(rooted: bool, stack: seq<string>, segs: seq<string>)
    requires Normal(Path(rooted, stack + segs))
    ensures PushAll(rooted, stack, segs) == stack + segs
    decreases |segs|
  {
    if segs != [] {
      var whole := stack + segs;
      assert whole[|stack|] == segs[0] && segs[0] in whole;
      assert segs[0] == ".." && stack != [] ==> whole[|stack| - 1] == stack[|stack| - 1];
      assert stack + [segs[0]] + segs[1..] == whole;
      PushAllKeeps(rooted, stack + [segs[0]], segs[1..]);
    }
  }

  lemma {:induction false} JoinHead(parts: seq<string>, c: char)
    requires |parts| >= 1
    ensures parts[0] <= Join(parts, c)
    ensures |parts| > 1 ==> parts[0] + [c] <= Join(parts, c)
  {
  }

  /** A rendered normal path parses back to itself. */
  lemma RenderParse(p: Path)
    requires Normal(p)
    ensures Parse(Render(p)) == p
  {
    PushRendered(p.rooted, [], p);
    assert [] + p.segs == p.segs;
    PushAllKeeps(p.rooted, [], p.segs);
    RenderStartsSlash(p);
    assert Render(p)[..1] == "/" <==> HasPrefix(Render(p), "/") by { DotIsEmpty(p); }
  }

  /** A single name is its own path. */
  lemma ParseName(name: string)
    requires Name(name)
    ensures Parse(name) == Path(false, [name]) && Clean(name) == name
  {
    RenderParse(Path(false, [name]));
  }

  /** Cleaning twice is cleaning once. */
  lemma CleanIdempotent(s: string)
    ensures Clean(Clean(s)) == Clean(s)
    ensures Parse(Clean(s)) == Parse(s)
  {
    ParseNormal(s);
    RenderParse(Parse(s));
  }

  /** A cleaned path that goes above its start shows it in its first segment. */
  ghost predicate Climbs(p: Path) { !p.rooted && p.segs != [] && p.segs[0] == ".." }

  /** The textual test of the code for climbing. */
  predicate LooksUpward(cleaned: string) {
    cleaned == ".." || HasPrefix(cleaned, "../")
  }

  /** A drive letter and a colon, as on Windows. */
  predicate LooksLikeDrive(s: string) {
    |s| >= 2 && s[1] == ':' && ('a' <= s[0] <= 'z' || 'A' <= s[0] <= 'Z')
  }

  /** A first segment is read off the text up to the first separator. */
  lemma FirstSegment(g: string, h: string, t: string)
    requires '/' !in g && '/' !in h
    ensures g + "/" <= h + "/" + t <==> g == h
    ensures h + "/" + t != g
  {
    var s := h + "/" + t;
    assert s[|h|] == '/';
    assert |g| < |h| ==> s[|g|] == h[|g|];
    assert (g + "/")[|g|] == '/';
    assert |g| > |h| ==> (g + "/")[|h|] == g[|h|];
    assert |g| == |h| ==> s[..|h|] == h && (g + "/")[..|h|] == g;
  }

  lemma UpwardHasSlash(s: string)
    ensures HasPrefix(s, "../") ==> '/' in s
  {
    if HasPrefix(s, "../") { assert s[2] == "../"[2]; }
  }

  lemma LooksUpwardMeaning(p: Path)
    requires Normal(p)
    ensures LooksUpward(Render(p)) <==> Climbs(p)
  {
    var s := Render(p);
    if p.rooted {
      assert s[0] == '/';
    } else if p.segs != [] {
      var h := p.segs[0];
      assert h in p.segs;
      if |p.segs| == 1 {
        UpwardHasSlash(h);
      } else {
        assert s == h + "/" + Join(p.segs[1..], '/');
        FirstSegment("..", h, Join(p.segs[1..], '/'));
        assert ".." + "/" == "../";
      }
    }
  }

  /** A normal path that does not climb has only names. */
  lemma {:induction false} NoClimbNames(p: Path)
    requires Normal(p) && !Climbs(p)
    ensures Names(p.segs)
  {
    forall i | 0 <= i < |p.segs| ensures p.segs[i] != ".." {
      NoDotDot(p, i);
    }
  }

  lemma {:induction false} NoDotDot(p: Path, i: nat)
    requires Normal(p) && !Climbs(p) && i < |p.segs|
    ensures p.segs[i] != ".."
  {
    if i > 0 { NoDotDot(p, i - 1); }
  }

  lemma NormalExtends(p: Path, names: seq<string>)
    requires Normal(p) && Names(names)
    ensures Normal(p.(segs := p.segs + names))
  {
    var q := p.segs + names;
    forall i | |p.segs| <= i < |q| ensures Name(q[i]) {
      assert q[i] in names;
    }
  }

  // ---------------------------------------------------------------------------
  // Join and Rel

  /** Joining a cleaned, non-climbing path below a root appends its segments. */
  lemma JoinBelow(root: string, rel: string)
    requires !Climbs(Parse(rel)) && Clean(rel) == rel
    ensures Normal(Path(Parse(root).rooted, Parse(root).segs + Parse(rel).segs))
    ensures root != "" ==> Parse(JoinPath([root, rel])) == Path(Parse(root).rooted, Parse(root).segs + Parse(rel).segs)
    ensures root == "" ==> Parse(JoinPath([root, rel])) == Parse(rel)
    ensures JoinPath([root, rel]) == Render(Parse(JoinPath([root, rel])))
  {
    var r, p := Parse(root), Parse(rel);
    ParseNormal(root);
    ParseNormal(rel);
    NoClimbNames(p);
    NormalExtends(r, p.segs);
    if root == "" {
      CleanIdempotent(rel);
      assert [root, rel][1..] == [rel];
      assert rel != "";
      assert Join([rel], '/') == rel;
    } else {
      var s := root + ['/'] + rel;
      assert Join([root, rel], '/') == s by { assert [root, rel][1..] == [rel]; }
      SplitConcat(root, '/', rel);
      PushAllConcat(r.rooted, [], Split(root, '/'), Split(rel, '/'));
      PushRelative(r, rel);
      CleanIdempotent(s);
    }
  }

  /** The pieces of a rendered path are its segments, up to empty and dot pieces. */
  lemma PushRendered(rooted: bool, stack: seq<string>, p: Path)
    requires Normal(p)
    ensures PushAll(rooted, stack, Split(Render(p), '/')) == PushAll(rooted, stack, p.segs)
  {
    var text := Join(p.segs, '/');
    if p.segs == [] {
      SplitPlain(".", '/');
      SplitPlain("", '/');
      SplitConcat("", '/', "");
      assert "" + ['/'] + "" == "/";
      PushAllConcat(rooted, stack, [""], [""]);
    } else {
      SplitJoin(p.segs, '/');
      if p.rooted {
        assert Render(p) == "" + ['/'] + text;
        SplitConcat("", '/', text);
        SplitPlain("", '/');
        PushAllConcat(rooted, stack, [""], p.segs);
      }
    }
  }

  /** Pushing the pieces of a cleaned, non-climbing path onto a normal stack. */
  lemma PushRelative(r: Path, rel: string)
    requires Normal(r) && Clean(rel) == rel && !Climbs(Parse(rel))
    ensures PushAll(r.rooted, r.segs, Split(rel, '/')) == r.segs + Parse(rel).segs
  {
    var p := Parse(rel);
    ParseNormal(rel);
    NoClimbNames(p);
    NormalExtends(r, p.segs);
    PushAllKeeps(r.rooted, r.segs, p.segs);
    PushRendered(r.rooted, r.segs, p);
  }

  function CommonPrefix(a: seq<string>, b: seq<string>): (n: nat)
    ensures n <= |a| && n <= |b| && a[..n] == b[..n]
    ensures n < |a| && n < |b| ==> a[n] != b[n]
  {
    if a != [] && b != [] && a[0] == b[0] then 1 + CommonPrefix(a[1..], b[1..]) else 0
  }

  /** `filepath.Rel`: the way from one path to another, when it exists lexically. */
  function Rel(base: string, target: string): Option<string> {
    var b, t := Parse(base), Parse(target);
    if b == t then Some(".")
    else if b.rooted != t.rooted then None
    else
      // only an empty base is dropped from the comparison, an empty target is not
      var tsegs := if t == Path(false, []) then ["."] else t.segs;
      var n := CommonPrefix(b.segs, tsegs);
      if exists i :: n <= i < |b.segs| && b.segs[i] == ".." then None
      else Some(Join(seq(|b.segs| - n, _ => "..") + tsegs[n..], '/'))
  }

  /** The way from a root to something below it is the path below it. */
  lemma RelBelow(root: Path, names: seq<string>)
    requires Normal(root) && Names(names)
    ensures Rel(Render(root), Render(root.(segs := root.segs + names))) ==
            Some(if names == [] then "." else Join(names, '/'))
  {
    var t := root.(segs := root.segs + names);
    NormalExtends(root, names);
    RenderParse(root);
    RenderParse(t);
    if names == [] {
      assert t == root;
    } else {
      CommonPrefixBelow(root.segs, names);
      assert t != root by { assert |t.segs| > |root.segs|; }
      assert seq(0, _ => "..") + t.segs[|root.segs|..] == names;
    }
  }

  lemma {:induction false} CommonPrefixBelow(segs: seq<string>, names: seq<string>)
    ensures CommonPrefix(segs, segs + names) == |segs|
  {
    if segs != [] {
      assert (segs + names)[1..] == segs[1..] + names;
      CommonPrefixBelow(segs[1..], names);
    }
  }

  lemma NamesDoNotClimb(names: seq<string>)
    requires Names(names)
    ensures !LooksUpward(if names == [] then "." else Join(names, '/'))
  {
    var p := Path(false, names);
    assert Normal(p) by {
      forall i | 0 <= i < |names| ensures names[i] != ".." { assert names[i] in names; }
    }
    LooksUpwardMeaning(p);
    if names != [] { assert names[0] in names; }
  }

  // ---------------------------------------------------------------------------
  // The two containment checks

  datatype PathError = Absolute | Escapes | Unrelated

  /** `secureJoin` of the fingerprint code. */
  function SecureJoin(root: string, rel: string): Result<string, PathError> {
    var cleanRel := Clean(Slashed(rel));
    if HasPrefix(cleanRel, "/") then Err(Absolute)
    else if LooksUpward(cleanRel) then Err(Escapes)
    else
      var full := JoinPath([root, cleanRel]);
      match Rel(Clean(root), full)
      case None => Err(Unrelated)
      case Some(way) => if LooksUpward(way) then Err(Escapes) else Ok(full)
  }

  /** `safeExtractPath` of the archive reader. */
  function SafeExtractPath(root: string, name: string): Result<string, PathError> {
    var cleaned := Clean(Slashed(name));
    if cleaned == "." || cleaned == "" then Ok(Clean(root))
    else if LooksUpward(cleaned) then Err(Escapes)
    else
      var full := JoinPath([root, cleaned]);
      match Rel(Clean(root), full)
      case None => Err(Unrelated)
      case Some(way) => if LooksUpward(way) then Err(Escapes) else Ok(full)
  }

  /** Where an accepted name lands: the root's segments, then the name's own. */
  function Below(root: string, name: string): Path {
    Path(Parse(root).rooted, Parse(root).segs + Parse(Slashed(name)).segs)
  }

  /** The outcome of the check on the joined path, for names the first check let through. */
  lemma SecondCheck(root: string, name: string)
    requires !Climbs(Parse(Slashed(name)))
    ensures var rel := Clean(Slashed(name));
            var full := JoinPath([root, rel]);
            var way := Rel(Clean(root), full);
            if root == "" && Parse(rel).rooted then way == None
            else way.Some? && !LooksUpward(way.value) && full == Render(Below(root, name))
    ensures Normal(Below(root, name)) && Names(Parse(Slashed(name)).segs)
  {
    var rel := Clean(Slashed(name));
    CleanIdempotent(Slashed(name));
    CleanIdempotent(root);
    ParseNormal(Slashed(name));
    ParseNormal(root);
    NoClimbNames(Parse(rel));
    JoinBelow(root, rel);
    CleanIdempotent(Join([root, rel], '/'));
    assert Parse("") == Path(false, []) by { SplitPlain("", '/'); }
    if !(root == "" && Parse(rel).rooted) {
      assert Parse(JoinPath([root, rel])) == Below(root, name);
      RelBelow(Parse(root), Parse(rel).segs);
      NamesDoNotClimb(Parse(rel).segs);
    }
  }

  /** `secureJoin` accepts exactly the relative names that do not climb, and what it
      returns is the root followed by the name; its second check rejects nothing. */
  lemma SecureJoinContained(root: string, rel: string)
    ensures SecureJoin(root, rel).Ok? <==> !Parse(Slashed(rel)).rooted && !Climbs(Parse(Slashed(rel)))
    ensures SecureJoin(root, rel).Ok? ==>
              && SecureJoin(root, rel).value == Render(Below(root, rel))
              && Parse(SecureJoin(root, rel).value) == Below(root, rel)
              && Names(Parse(Slashed(rel)).segs)
    ensures SecureJoin(root, rel) != Err(Unrelated)
  {
    var p := Parse(Slashed(rel));
    ParseNormal(Slashed(rel));
    LooksUpwardMeaning(p);
    CleanIdempotent(Slashed(rel));
    RenderStartsSlash(p);
    if !Climbs(p) {
      SecondCheck(root, rel);
      RenderParse(Below(root, rel));
    }
  }

  lemma RenderStartsSlash(p: Path)
    requires Normal(p)
    ensures HasPrefix(Render(p), "/") <==> p.rooted
  {
    if p.rooted {
      assert Render(p)[..1] == "/";
    } else if p.segs != [] {
      JoinHead(p.segs, '/');
      var h := p.segs[0];
      assert h in p.segs && h[0] in h && Render(p)[0] == h[0];
    } else {
      assert Render(p)[0] == '.';
    }
  }

  /** `safeExtractPath` accepts a name exactly when it does not climb and is not an
      absolute name under an empty root; what it returns is the root followed by
      the name. The second check is what catches the absolute name. */
  lemma SafeExtractContained(root: string, name: string)
    ensures SafeExtractPath(root, name).Ok? <==>
            !Climbs(Parse(Slashed(name))) && !(root == "" && Parse(Slashed(name)).rooted)
    ensures SafeExtractPath(root, name).Ok? ==>
              && SafeExtractPath(root, name).value == Render(Below(root, name))
              && Parse(SafeExtractPath(root, name).value) == Below(root, name)
              && Names(Parse(Slashed(name)).segs)
    ensures SafeExtractPath(root, name) == Err(Unrelated) <==>
            root == "" && Parse(Slashed(name)).rooted
  {
    var p := Parse(Slashed(name));
    ParseNormal(Slashed(name));
    ParseNormal(root);
    LooksUpwardMeaning(p);
    CleanIdempotent(Slashed(name));
    RenderStartsSlash(p);
    if Render(p) == "." {
      DotIsEmpty(p);
      assert Below(root, name) == Parse(root);
      RenderParse(Parse(root));
    } else if !Climbs(p) {
      SecondCheck(root, name);
      RenderParse(Below(root, name));
    }
  }

  lemma DotIsEmpty(p: Path)
    requires Normal(p)
    ensures Render(p) == "." <==> p == Path(false, [])
    ensures Render(p) != ""
  {
    if p.rooted {
      assert Render(p)[0] == '/';
    } else if p.segs != [] {
      var h := p.segs[0];
      assert h in p.segs;
      if |p.segs| > 1 {
        assert Render(p) == h + "/" + Join(p.segs[1..], '/');
        FirstSegment(".", h, Join(p.segs[1..], '/'));
      }
    }
  }

  /** A concrete name on which only the second check of `safeExtractPath` helps. */
  lemma AbsoluteNameUnderEmptyRoot()
    ensures SafeExtractPath("", "/a") == Err(Unrelated)
  {
    SafeExtractContained("", "/a");
  }
}
