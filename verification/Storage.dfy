/** Where artifacts are kept and downloaded to: the keys of stored artifacts, their names
    in a bucket, and the plan of a bulk download. */
module Storage {
  import opened Text
  import opened Paths

  // ---------------------------------------------------------------------------
  // Paths without `..`

  predicate NoUp(s: string) { ".." !in Split(s, '/') }

  lemma {:induction false} PushAllPlain(rooted: bool, stack: seq<string>, segs: seq<string>)
    requires ".." !in segs
    ensures PushAll(rooted, stack, segs) == stack + PushAll(false, [], segs)
    decreases |segs|
  {
    if segs != [] {
      var one := Push(false, [], segs[0]);
      PushAllPlain(rooted, Push(rooted, stack, segs[0]), segs[1..]);
      PushAllPlain(false, one, segs[1..]);
      assert Push(rooted, stack, segs[0]) == stack + one;
      ConcatAssoc(stack, one, PushAll(false, [], segs[1..]));
    }
  }

  lemma {:induction false} PushAllNames(segs: seq<string>)
    requires ".." !in segs && forall s <- segs :: '/' !in s
    ensures Names(PushAll(false, [], segs))
    decreases |segs|
  {
    if segs != [] {
      assert segs[0] in segs;
      PushAllPlain(false, Push(false, [], segs[0]), segs[1..]);
      PushAllNames(segs[1..]);
    }
  }

  /** The names a path without `..` passes through. */
  function NamesOf(s: string): seq<string> { PushAll(false, [], Split(s, '/')) }

  lemma PlainParse(s: string)
    requires NoUp(s)
    ensures Parse(s).segs == NamesOf(s) && Names(NamesOf(s))
  {
    PushAllPlain(Parse(s).rooted, [], Split(s, '/'));
    SplitPartsPlain(s, '/');
    PushAllNames(Split(s, '/'));
  }

  /** Below a root such a path adds its names. */
  lemma PlainBelow(root: string, s: string)
    requires root != "" && NoUp(s)
    ensures Parse(root + ['/'] + s) == Path(Parse(root).rooted, Parse(root).segs + NamesOf(s))
  {
    var r := Parse(root);
    SplitConcat(root, '/', s);
    PushAllConcat(r.rooted, [], Split(root, '/'), Split(s, '/'));
    PushAllPlain(r.rooted, r.segs, Split(s, '/'));
  }

  // ---------------------------------------------------------------------------
  // Keys of stored artifacts

  /** The part of a path after its last separator. */
  function LastPart(s: string): (r: string)
    ensures '/' !in r
  {
    if s == "" || s[|s| - 1] == '/' then "" else LastPart(s[..|s| - 1]) + [s[|s| - 1]]
  }

  function StripSlashes(s: string): string {
    if s != "" && s[|s| - 1] == '/' then StripSlashes(s[..|s| - 1]) else s
  }

  /** `path.Base` */
  function Base(s: string): string {
    if s == "" then "."
    else if StripSlashes(s) == "" then "/"
    else LastPart(StripSlashes(s))
  }

  /** `buildStorageKey` */
  function StorageKey(buildID: string, stepID: string, id: string, logicalPath: string): string {
    var file := id + ("-" + Base(logicalPath));
    if stepID != "" then JoinPath(["builds", buildID, "steps", stepID, file])
    else JoinPath(["builds", buildID, "shared", file])
  }

  lemma JoinLast(elems: seq<string>, last: string, c: char)
    requires elems != []
    ensures Join(elems + [last], c) == Join(elems, c) + [c] + last
  {
    if |elems| == 1 {
      assert (elems + [last])[1..] == [last];
    } else {
      JoinLast(elems[1..], last, c);
      assert (elems + [last])[1..] == elems[1..] + [last];
    }
  }

  /** What follows an identifier in the last segment of its key. */
  function Tail(logicalPath: string): string {
    if Base(logicalPath) == "/" then "-" else "-" + Base(logicalPath)
  }

  lemma FileSegments(id: string, logicalPath: string)
    requires '/' !in id
    ensures var file := id + ("-" + Base(logicalPath));
            NoUp(file) && NamesOf(file) == [id + Tail(logicalPath)]
  {
    var base := Base(logicalPath);
    var seg := id + Tail(logicalPath);
    assert seg[|id|] == '-';
    assert Name(seg);
    if base == "/" {
      var file := id + ("-" + base);
      assert file == seg + ['/'] + "";
      SplitConcat(seg, '/', "");
      SplitPlain(seg, '/');
      SplitPlain("", '/');
      assert Split(file, '/') == [seg, ""] && [seg, ""][1..] == [""] && [""][1..] == [];
      OneName(seg, [""]);
    } else {
      SplitPlain(seg, '/');
      assert [seg][1..] == [];
      OneName(seg, []);
    }
  }

  lemma OneName(seg: string, rest: seq<string>)
    requires Name(seg) && (rest == [] || rest == [""])
    ensures PushAll(false, [], [seg] + rest) == [seg]
  {
    assert ([seg] + rest)[1..] == rest;
    assert Push(false, [], seg) == [seg];
    if rest != [] {
      assert rest[1..] == [] && Push(false, [seg], "") == [seg];
      assert PushAll(false, [seg], rest) == PushAll(false, [seg], []);
    }
  }

  /** The last segment of a storage key begins with the generated identifier. */
  lemma KeyEndsWithID(buildID: string, stepID: string, id: string, logicalPath: string)
    requires '/' !in id
    ensures var segs := Parse(StorageKey(buildID, stepID, id, logicalPath)).segs;
            segs != [] && segs[|segs| - 1] == id + Tail(logicalPath)
  {
    var file := id + ("-" + Base(logicalPath));
    var front := if stepID != "" then ["builds", buildID, "steps", stepID] else ["builds", buildID, "shared"];
    FileSegments(id, logicalPath);
    JoinLast(front, file, '/');
    var root := Join(front, '/');
    JoinHead(front, '/');
    PlainBelow(root, file);
    CleanIdempotent(root + ['/'] + file);
    assert stepID != "" ==> front + [file] == ["builds", buildID, "steps", stepID, file];
    assert stepID == "" ==> front + [file] == ["builds", buildID, "shared", file];
  }

  /** Identifiers of one length that differ give different keys, whatever the builds,
      steps and paths. */
  lemma KeysDistinct(
    buildA: string, stepA: string, a: string, pathA: string, buildB: string, stepB: string, b: string, pathB: string)
    requires a != b && |a| == |b| && '/' !in a && '/' !in b
    ensures StorageKey(buildA, stepA, a, pathA) != StorageKey(buildB, stepB, b, pathB)
  {
    KeyEndsWithID(buildA, stepA, a, pathA);
    KeyEndsWithID(buildB, stepB, b, pathB);
    var x, y := a + Tail(pathA), b + Tail(pathB);
    assert x[..|a|] == a && y[..|b|] == b;
  }

  // ---------------------------------------------------------------------------
  // Names in a bucket

  /** `validateKey`, on a key that is trimmed already. */
  predicate ValidText(t: string) {
    t != "" && '\\' !in t && !HasPrefix(t, "/") && NoUp(t) && Clean(t) != "."
  }

  predicate ValidKey(key: string) { ValidText(Trim(key)) }

  predicate EndsInSpace(s: string) { s != "" && IsSpace(s[|s| - 1]) }

  predicate Within(prefix: string, name: string) { name == prefix || HasPrefix(name, prefix + "/") }

  /** `objectName`, on a key that is trimmed already. */
  function NameOf(prefix: string, trimmed: string): string {
    if prefix == "" || Within(prefix, trimmed) then trimmed else JoinPath([prefix, trimmed])
  }

  function ObjectName(prefix: string, key: string): string { NameOf(prefix, Trim(key)) }

  lemma {:induction false} JoinConcat(a: seq<string>, b: seq<string>, c: char)
    requires a != [] && b != []
    ensures Join(a + b, c) == Join(a, c) + ([c] + Join(b, c))
  {
    if |a| == 1 {
      assert (a + b)[1..] == b;
    } else {
      JoinConcat(a[1..], b, c);
      assert (a + b)[1..] == a[1..] + b;
    }
  }

  /** The name given to a key outside the prefix: the prefix, then the names of the key. */
  lemma NameBelowPrefix(prefix: string, trimmed: string)
    requires Clean(prefix) == prefix && Parse(prefix).segs != [] && NoUp(trimmed) && NamesOf(trimmed) != []
    ensures JoinPath([prefix, trimmed]) == prefix + ("/" + Join(NamesOf(trimmed), '/'))
  {
    var p, names := Parse(prefix), NamesOf(trimmed);
    ParseNormal(prefix);
    DotIsEmpty(p);
    assert [prefix, trimmed][1..] == [trimmed];
    assert Join([prefix, trimmed], '/') == prefix + ['/'] + trimmed;
    PlainBelow(prefix, trimmed);
    JoinConcat(p.segs, names, '/');
    assert p.rooted ==> "/" + (Join(p.segs, '/') + ("/" + Join(names, '/'))) == prefix + ("/" + Join(names, '/'));
  }

  /** Resolving a resolved name. */
  lemma NameTwice(prefix: string, name: string)
    requires prefix != "" && Trimmed(prefix) && HasPrefix(name, prefix + "/")
    ensures NameOf(prefix, Trim(name)) == name <==> Trimmed(name)
  {
    var slash := |prefix|;
    assert name[slash] == '/' && name[0] == prefix[0];
    TrimIsPrefix(name);
    TrimEnds(name);
    TrimReaches(name, slash);
    assert HasPrefix(Trim(name), prefix + "/");
    if Trimmed(name) { TrimFixpoint(name); }
  }

  /** Trimming does not cut off a character that is not white space. */
  lemma TrimReaches(s: string, i: nat)
    requires i < |s| && !IsSpace(s[i]) && !IsSpace(s[0])
    ensures |Trim(s)| > i
  {
    RightReaches(s, i);
  }

  lemma {:induction false} RightReaches(s: string, i: nat)
    requires i < |s| && !IsSpace(s[i])
    ensures |TrimRight(s)| > i
  {
    if IsSpace(s[|s| - 1]) { RightReaches(s[..|s| - 1], i); }
  }

  /** The contract of a key resolver, that resolving twice is resolving once: for a
      cleaned prefix and a valid key it holds exactly when the key is inside the prefix
      already or does not end in white space once cleaned. */
  lemma ObjectNameIdempotent(prefix: string, key: string)
    requires Trimmed(prefix) && (prefix == "" || (Clean(prefix) == prefix && Parse(prefix).segs != [])) && ValidKey(key)
    ensures ObjectName(prefix, ObjectName(prefix, key)) == ObjectName(prefix, key) <==>
            prefix == "" || Within(prefix, Trim(key)) || !EndsInSpace(Clean(Trim(key)))
  {
    TrimEnds(key);
    TextNamedTwice(prefix, Trim(key), NameOf(prefix, Trim(key)));
  }

  lemma TextNamedTwice(prefix: string, t: string, name: string)
    requires Trimmed(prefix) && (prefix == "" || (Clean(prefix) == prefix && Parse(prefix).segs != []))
    requires ValidText(t) && Trimmed(t) && name == NameOf(prefix, t)
    ensures NameOf(prefix, Trim(name)) == name <==> prefix == "" || Within(prefix, t) || !EndsInSpace(Clean(t))
  {
    TrimFixpoint(t);
    if prefix != "" && !Within(prefix, t) {
      CleanKey(t);
      NameBelowPrefix(prefix, t);
      Outside(prefix, t, Join(NamesOf(t), '/'));
    }
  }

  lemma SlashFirst(s: string)
    ensures HasPrefix(s, "/") <==> s != "" && s[0] == '/'
  {
    if s != "" { assert s[..1] == [s[0]]; }
  }

  lemma CleanKey(trimmed: string)
    requires NoUp(trimmed) && !HasPrefix(trimmed, "/") && Clean(trimmed) != "."
    ensures NamesOf(trimmed) != [] && Clean(trimmed) == Join(NamesOf(trimmed), '/') && Clean(trimmed) != ""
  {
    PlainParse(trimmed);
    ParseNormal(trimmed);
    DotIsEmpty(Parse(trimmed));
    SlashFirst(trimmed);
  }

  lemma Outside(prefix: string, trimmed: string, text: string)
    requires prefix != "" && Trimmed(prefix) && text != "" && !Within(prefix, trimmed)
    requires JoinPath([prefix, trimmed]) == prefix + ("/" + text)
    ensures NameOf(prefix, Trim(NameOf(prefix, trimmed))) == NameOf(prefix, trimmed) <==> !EndsInSpace(text)
  {
    var name := prefix + ("/" + text);
    assert (prefix + "/") + text == name;
    assert name[0] == prefix[0] && name[|name| - 1] == text[|text| - 1];
    NameTwice(prefix, name);
  }

  /** A valid key whose name changes when it is resolved again. */
  lemma TrailingSpaceNotIdempotent(prefix: string, key: string)
    requires prefix == "p" && key == "a /"
    ensures ValidKey(key) && ObjectName(prefix, ObjectName(prefix, key)) != ObjectName(prefix, key)
  {
    SpacedKey(key);
    TrimFixpoint(key);
    ParseName(prefix);
    PrefixStarts(key, prefix + "/");
    TextNamedTwice(prefix, key, NameOf(prefix, key));
  }

  lemma SpacedKey(key: string)
    requires key == "a /"
    ensures ValidText(key) && EndsInSpace(Clean(key)) && Trimmed(key)
  {
    SplitConcat("a ", '/', "");
    SplitPlain("a ", '/');
    SplitPlain("", '/');
    assert key == "a " + ['/'] + "" && Split(key, '/') == ["a ", ""];
    assert ["a ", ""] == ["a "] + [""];
    OneName("a ", [""]);
    PlainParse(key);
    SlashFirst(key);
    assert Clean(key) == "a ";
  }

  // ---------------------------------------------------------------------------
  // Names in a bucket, for prefixes that are not cleaned

  /** How many segments in front are `..`. */
  function Climb(segs: seq<string>): (u: nat)
    ensures u <= |segs| && forall i :: 0 <= i < u ==> segs[i] == ".."
  {
    if segs != [] && segs[0] == ".." then 1 + Climb(segs[1..]) else 0
  }

  /** Behind them a normal path has names only. */
  lemma {:induction false} ClimbThenNames(p: Path)
    requires Normal(p)
    ensures p.rooted ==> Climb(p.segs) == 0
    ensures Names(p.segs[Climb(p.segs)..])
    decreases |p.segs|
  {
    if p.segs != [] {
      if p.segs[0] == ".." {
        NormalTail(p);
        ClimbThenNames(p.(segs := p.segs[1..]));
        assert p.segs[Climb(p.segs)..] == p.segs[1..][Climb(p.segs[1..])..];
      } else {
        NoClimbNames(p);
        assert p.segs[0..] == p.segs;
      }
    }
  }

  lemma NormalTail(p: Path)
    requires Normal(p) && p.segs != []
    ensures p.segs[0] == ".." ==> Normal(p.(segs := p.segs[1..]))
  {
    var q := p.segs[1..];
    forall i | 0 <= i < |q| && q[i] == ".." ensures !p.rooted && (i == 0 || q[i - 1] == "..") {
      assert p.segs[i + 1] == "..";
    }
  }

  predicate AllUp(segs: seq<string>) { forall i :: 0 <= i < |segs| ==> segs[i] == ".." }

  /** Climbing takes names away. */
  lemma {:induction false} ClimbNames(stack: seq<string>, names: seq<string>, climbs: seq<string>)
    requires Names(names) && AllUp(climbs) && |climbs| <= |names|
    ensures PushAll(false, stack + names, climbs) == stack + names[..|names| - |climbs|]
    decreases |climbs|
  {
    if climbs == [] {
      assert names[..|names|] == names;
    } else {
      var fewer := names[..|names| - 1];
      assert names[|names| - 1] in names;
      assert (stack + names)[..|stack + names| - 1] == stack + fewer;
      assert Push(false, stack + names, climbs[0]) == stack + fewer;
      ClimbNames(stack, fewer, climbs[1..]);
      assert fewer[..|fewer| - |climbs[1..]|] == names[..|names| - |climbs|];
    }
  }

  /** Climbing where there are no names left is kept. */
  lemma {:induction false} ClimbOn(stack: seq<string>, climbs: seq<string>)
    requires AllUp(stack) && AllUp(climbs)
    ensures PushAll(false, stack, climbs) == stack + climbs
    decreases |climbs|
  {
    if climbs == [] {
      assert stack + climbs == stack;
    } else {
      assert Push(false, stack, climbs[0]) == stack + [climbs[0]];
      ClimbOn(stack + [climbs[0]], climbs[1..]);
      assert stack + [climbs[0]] + climbs[1..] == stack + climbs;
    }
  }

  /** Climbing `u` times from `u` climbs and some names ends at exactly the `u` climbs if
      there are `u` names, and at a longer path otherwise. */
  lemma ClimbAgain(ups: seq<string>, own: seq<string>)
    requires AllUp(ups) && Names(own)
    ensures |own| == |ups| ==> PushAll(false, ups + own, ups) == ups
    ensures |own| != |ups| ==> |PushAll(false, ups + own, ups)| > |ups|
  {
    if |ups| <= |own| {
      ClimbNames(ups, own, ups);
      assert own[..0] == [] && ups + [] == ups;
    } else {
      var first, more := ups[..|own|], ups[|own|..];
      assert ups == first + more;
      PushAllConcat(false, ups + own, first, more);
      ClimbNames(ups, own, first);
      assert own[..0] == [] && ups + [] == ups;
      ClimbOn(ups, more);
    }
  }

  /** Resolving the segments of a name below the prefix once more: nothing changes exactly
      when the prefix has as many names as it climbs. */
  lemma PushedAgain(p: Path, names: seq<string>)
    requires Normal(p) && Names(names) && names != []
    ensures PushAll(p.rooted, p.segs, p.segs + names) == p.segs + names <==> |p.segs| == 2 * Climb(p.segs)
  {
    var u := Climb(p.segs);
    var ups, own := p.segs[..u], p.segs[u..];
    ClimbThenNames(p);
    assert p.segs == ups + own;
    ConcatAssoc(ups, own, names);
    NamesBoth(own, names);
    PushAllConcat(p.rooted, p.segs, ups, own + names);
    var pushed := PushAll(p.rooted, p.segs, ups);
    PushAllPlain(p.rooted, pushed, own + names);
    NamesPushed(own + names);
    if p.rooted { assert ups == [] && pushed == p.segs; } else { ClimbAgain(ups, own); }
    Compared(pushed, ups, own + names);
  }

  lemma NamesBoth(a: seq<string>, b: seq<string>)
    requires Names(a) && Names(b)
    ensures Names(a + b) && ".." !in a + b
  {
    forall s | s in a + b ensures Name(s) { assert s in a || s in b; }
  }

  lemma Compared(pushed: seq<string>, ups: seq<string>, rest: seq<string>)
    ensures pushed == ups ==> pushed + rest == ups + rest
    ensures |pushed| > |ups| ==> pushed + rest != ups + rest
  {
    if |pushed| > |ups| { assert |pushed + rest| > |ups + rest|; }
  }

  lemma NamesPushed(names: seq<string>)
    requires Names(names)
    ensures PushAll(false, [], names) == names
  {
    NormalExtends(Path(false, []), names);
    assert [] + names == names;
    PushAllKeeps(false, [], names);
  }

  /** A prefix that a cleaned name lies within is cleaned itself. */
  lemma WithinIsClean(prefix: string, q: Path)
    requires Normal(q) && q.segs != [] && prefix != "" && Within(prefix, Render(q))
    ensures Clean(prefix) == prefix
  {
    var name := Render(q);
    RenderParse(q);
    if name != prefix {
      var rest := name[|prefix| + 1..];
      assert name == prefix + ['/'] + rest by { assert name[..|prefix| + 1] == prefix + "/"; }
      SplitConcat(prefix, '/', rest);
      PiecesOfRendered(q);
      var pieces, k := Split(prefix, '/'), |Split(prefix, '/')|;
      assert pieces == Split(name, '/')[..k];
      JoinSplit(prefix, '/');
      if q.rooted {
        assert pieces == [""] + q.segs[..k - 1];
        if k > 1 {
          JoinRooted(q.segs[..k - 1]);
          PartNormal(q, k - 1);
          RenderParse(Path(true, q.segs[..k - 1]));
        }
      } else {
        assert pieces == q.segs[..k];
        PartNormal(q, k);
        RenderParse(Path(false, q.segs[..k]));
      }
    }
  }

  lemma PiecesOfRendered(q: Path)
    requires Normal(q) && q.segs != []
    ensures Split(Render(q), '/') == if q.rooted then [""] + q.segs else q.segs
  {
    SplitJoin(q.segs, '/');
    if q.rooted {
      assert Render(q) == "" + ['/'] + Join(q.segs, '/');
      SplitConcat("", '/', Join(q.segs, '/'));
      SplitPlain("", '/');
    }
  }

  lemma JoinRooted(segs: seq<string>)
    requires segs != []
    ensures Join([""] + segs, '/') == "/" + Join(segs, '/')
  {
    assert ([""] + segs)[1..] == segs;
  }

  lemma PartNormal(q: Path, k: nat)
    requires Normal(q) && k <= |q.segs|
    ensures Normal(q.(segs := q.segs[..k]))
  {
    var part := q.segs[..k];
    forall s | s in part ensures Segment(s) { assert s in q.segs; }
    forall i | 0 <= i < |part| && part[i] == ".." ensures !q.rooted && (i == 0 || part[i - 1] == "..") {
      assert q.segs[i] == "..";
    }
  }

  /** The prefix survives another resolution: it is cleaned, or it has as many names as it
      climbs, which takes it back to where it started. */
  predicate Stable(prefix: string) {
    Clean(prefix) == prefix || |Parse(prefix).segs| == 2 * Climb(Parse(prefix).segs)
  }

  /** For any prefix at all and any valid key whose name has no white space at its ends:
      resolving twice is resolving once exactly when the key is inside the prefix already
      or the prefix is stable. */
  lemma TrimmedNameIdempotent(prefix: string, t: string, name: string)
    requires ValidText(t) && Trimmed(t) && name == NameOf(prefix, t) && Trimmed(name)
    ensures NameOf(prefix, Trim(name)) == name <==> prefix == "" || Within(prefix, t) || Stable(prefix)
  {
    TrimFixpoint(name);
    NamedAgain(prefix, t, name);
  }

  lemma NamedAgain(prefix: string, t: string, name: string)
    requires ValidText(t) && name == NameOf(prefix, t)
    ensures NameOf(prefix, name) == name <==> prefix == "" || Within(prefix, t) || Stable(prefix)
  {
    if prefix != "" && !Within(prefix, t) { OutsideTwice(prefix, t); }
  }

  lemma OutsideTwice(prefix: string, t: string)
    requires ValidText(t) && prefix != "" && !Within(prefix, t)
    ensures NameOf(prefix, NameOf(prefix, t)) == NameOf(prefix, t) <==> Stable(prefix)
  {
    var p, names := Parse(prefix), NamesOf(t);
    var q, name := p.(segs := p.segs + names), NameOf(prefix, t);
    CleanKey(t);
    PlainParse(t);
    ParseNormal(prefix);
    NormalExtends(p, names);
    JoinedName(prefix, t);
    RenderParse(q);
    ClimbsOrNot(prefix, p);
    if Within(prefix, name) {
      WithinIsClean(prefix, q);
    } else {
      JoinedAgain(prefix, q);
      PushedAgain(p, names);
      if Clean(prefix) == prefix && p.segs != [] { NameBelowPrefix(prefix, t); WithinJoin(prefix, Join(names, '/')); }
    }
  }

  lemma ClimbsOrNot(prefix: string, p: Path)
    ensures p.segs == [] ==> |p.segs| == 2 * Climb(p.segs)
  {
  }

  lemma WithinJoin(prefix: string, text: string)
    ensures Within(prefix, prefix + ("/" + text))
  {
    assert prefix + ("/" + text) == (prefix + "/") + text;
  }

  lemma JoinedName(prefix: string, t: string)
    requires prefix != "" && NoUp(t)
    ensures JoinPath([prefix, t]) == Render(Path(Parse(prefix).rooted, Parse(prefix).segs + NamesOf(t)))
  {
    assert [prefix, t][1..] == [t];
    assert Join([prefix, t], '/') == prefix + ['/'] + t;
    PlainBelow(prefix, t);
  }

  /** Joining the prefix with a rendered path pushes that path's segments. */
  lemma JoinedAgain(prefix: string, q: Path)
    requires prefix != "" && Normal(q)
    ensures var p := Parse(prefix);
            JoinPath([prefix, Render(q)]) == Render(Path(p.rooted, PushAll(p.rooted, p.segs, q.segs)))
    ensures var p := Parse(prefix); p.rooted == q.rooted ==>
              (JoinPath([prefix, Render(q)]) == Render(q) <==> PushAll(p.rooted, p.segs, q.segs) == q.segs)
  {
    var p := Parse(prefix);
    JoinedText(prefix, Render(q));
    PushRendered(p.rooted, p.segs, q);
    RenderParse(q);
    RenderParse(Path(p.rooted, PushAll(p.rooted, p.segs, q.segs)));
  }

  /** For any prefix and any valid key outside it, white space at the ends of the name or
      not: resolving twice is resolving once exactly when trimming takes nothing from the
      name and the name is within the prefix, or, the trimmed name being outside the
      prefix, its names are again those of the key. Where trimming brings a `..` about, the
      segments decide in place of the names. */
  lemma NamedTwiceExactly(prefix: string, t: string, name: string, trimmed: string)
    requires ValidText(t) && prefix != "" && !Within(prefix, t)
    requires name == NameOf(prefix, t) && trimmed == Trim(name)
    ensures Within(prefix, trimmed) ==> (NameOf(prefix, trimmed) == name <==> Trimmed(name))
    ensures !Within(prefix, trimmed) && NoUp(trimmed) ==> (NameOf(prefix, trimmed) == name <==> NamesOf(trimmed) == NamesOf(t))
    ensures var p := Parse(prefix);
            !Within(prefix, trimmed) ==>
              (NameOf(prefix, trimmed) == name <==>
               PushAll(p.rooted, p.segs, Split(trimmed, '/')) == p.segs + NamesOf(t))
  {
    if Within(prefix, trimmed) {
      TrimEnds(name);
      if Trimmed(name) { TrimFixpoint(name); }
    } else {
      JoinedTwice(prefix, t, trimmed);
    }
  }

  lemma JoinedTwice(prefix: string, t: string, x: string)
    requires ValidText(t) && prefix != ""
    ensures var p := Parse(prefix);
            && (JoinPath([prefix, x]) == JoinPath([prefix, t]) <==>
                PushAll(p.rooted, p.segs, Split(x, '/')) == p.segs + NamesOf(t))
            && (NoUp(x) ==> (JoinPath([prefix, x]) == JoinPath([prefix, t]) <==> NamesOf(x) == NamesOf(t)))
  {
    var p := Parse(prefix);
    var q := Path(p.rooted, p.segs + NamesOf(t));
    CleanKey(t);
    PlainParse(t);
    ParseNormal(prefix);
    NormalExtends(p, NamesOf(t));
    JoinedName(prefix, t);
    JoinedText(prefix, x);
    RenderParse(q);
    RenderParse(Path(p.rooted, PushAll(p.rooted, p.segs, Split(x, '/'))));
    if NoUp(x) {
      PushAllPlain(p.rooted, p.segs, Split(x, '/'));
      SameTail(p.segs, NamesOf(x), NamesOf(t));
    }
  }

  lemma SameTail<T>(a: seq<T>, x: seq<T>, y: seq<T>)
    ensures a + x == a + y <==> x == y
  {
    if a + x == a + y { assert x == (a + x)[|a|..] && y == (a + y)[|a|..]; }
  }

  /** Joining the prefix with any text pushes the pieces of the text. */
  lemma JoinedText(prefix: string, x: string)
    requires prefix != ""
    ensures var p := Parse(prefix);
            var q := Path(p.rooted, PushAll(p.rooted, p.segs, Split(x, '/')));
            Normal(q) && JoinPath([prefix, x]) == Render(q)
  {
    var p, text := Parse(prefix), prefix + ['/'] + x;
    assert [prefix, x][1..] == [x];
    assert Join([prefix, x], '/') == text;
    SplitConcat(prefix, '/', x);
    PushAllConcat(p.rooted, [], Split(prefix, '/'), Split(x, '/'));
    ParseNormal(text);
  }

  /** With a slash at the end of the prefix `x/`, the key `y` becomes `x/y`, and then `x/x/y`. */
  lemma SlashedPrefixNotIdempotent(x: string, y: string)
    requires Name(x) && Name(y)
    ensures var prefix := x + ['/'];
            NameOf(prefix, y) == x + ['/'] + y && NameOf(prefix, x + ['/'] + y) == x + ['/'] + (x + ['/'] + y)
  {
    var prefix := x + ['/'];
    SlashedPrefix(x);
    KeyOutside(x, y);
    OneKey(y);
    JoinedName(prefix, y);
    ConcatPair(x, y);
    JoinTwoThree(x, y);
    NamesPair(x, y);
    JoinedAgain(prefix, Path(false, [x, y]));
    PushTwoNames(x, y);
  }

  lemma KeyOutside(x: string, y: string)
    requires Name(x) && Name(y)
    ensures !Within(x + ['/'], y) && !Within(x + ['/'], x + ['/'] + y)
  {
    var prefix, name := x + ['/'], x + ['/'] + y;
    assert prefix[|x|] == '/' && prefix[|x|] in prefix;
    CharOfPrefix(y, prefix + "/", '/');
    assert name[|x| + 1] == y[0] && y[0] in y;
    assert (prefix + "/")[|x| + 1] == '/';
  }

  lemma CharOfPrefix(s: string, p: string, c: char)
    ensures HasPrefix(s, p) && c in p ==> c in s
  {
    if HasPrefix(s, p) && c in p {
      var i :| 0 <= i < |p| && p[i] == c;
      assert s[i] == c;
    }
  }

  lemma OneKey(y: string)
    requires Name(y)
    ensures NoUp(y) && NamesOf(y) == [y]
  {
    SplitPlain(y, '/');
    NamesPushed([y]);
  }

  lemma NamesPair(x: string, y: string)
    requires Name(x) && Name(y)
    ensures Normal(Path(false, [x, y]))
  {
    NormalExtends(Path(false, []), [x, y]);
    assert [] + [x, y] == [x, y];
  }

  lemma ConcatPair<T>(x: T, y: T)
    ensures [x] + [y] == [x, y]
  {
  }

  lemma PushTwoNames(x: string, y: string)
    requires Name(x) && Name(y)
    ensures PushAll(false, [x], [x, y]) == [x, x, y]
  {
    NormalExtends(Path(false, []), [x, x, y]);
    assert [] + [x, x, y] == [x, x, y] && [x] + [x, y] == [x, x, y];
    PushAllKeeps(false, [x], [x, y]);
  }

  lemma JoinTwoThree(x: string, y: string)
    ensures Join([x, y], '/') == x + ['/'] + y
    ensures Join([x, x, y], '/') == x + ['/'] + (x + ['/'] + y)
  {
    assert [x, y][1..] == [y] && [x, x, y][1..] == [x, y];
  }

  lemma SlashedPrefix(x: string)
    requires Name(x)
    ensures Parse(x + ['/']) == Path(false, [x])
  {
    assert x + ['/'] == x + ['/'] + "";
    SplitConcat(x, '/', "");
    SplitPlain(x, '/');
    SplitPlain("", '/');
    OneName(x, [""]);
    assert (x + ['/'])[0] == x[0] && x[0] in x;
  }

  // ---------------------------------------------------------------------------
  // Bulk downloads

  datatype Artifact = Artifact(id: string, name: string, path: string)

  datatype Planned = Planned(artifact: Artifact, destination: string)

  /** What is at a destination already. */
  datatype Stat = NoEntry | IsFile | IsDirectory | StatFailed

  predicate Blocks(stat: Stat, force: bool) { stat.IsDirectory? || stat.StatFailed? || (stat.IsFile? && !force) }

  /** `validateArtifactRelativePath`, on a path that is trimmed and slashed already. */
  function LocalPath(n: string): Option<string> {
    if n == "" || HasPrefix(n, "/") || LooksLikeDrive(n) || !NoUp(n) then None
    else if Clean(n) == "." || LooksUpward(Clean(n)) then None
    else Some(Clean(n))
  }

  /** The first of path, name and identifier that is not blank. */
  function Candidate(a: Artifact): string {
    if Trim(a.path) != "" then Trim(a.path) else if Trim(a.name) != "" then Trim(a.name) else Trim(a.id)
  }

  function Placed(out: string, local: Option<string>): Option<string> {
    if local.None? then None else Some(Clean(JoinPath([out, local.value])))
  }

  /** Where an artifact would be written, if it has a safe local path. */
  function Destination(out: string, a: Artifact): Option<string> { Placed(out, LocalPath(Trim(Slashed(Candidate(a))))) }

  /** A local path lies strictly below the output directory. */
  lemma LocalPathInside(out: string, n: string)
    requires out != "" && LocalPath(n).Some?
    ensures var d := Placed(out, LocalPath(n)).value;
            && Clean(d) == d && NamesOf(n) != [] && Names(NamesOf(n))
            && Parse(d) == Path(Parse(out).rooted, Parse(out).segs + NamesOf(n))
  {
    CleanKey(n);
    PlainParse(n);
    SlashFirst(n);
    var rel := Clean(n);
    CleanIdempotent(n);
    assert Parse(rel) == Path(false, NamesOf(n));
    assert NamesOf(n)[0] in NamesOf(n);
    JoinBelow(out, rel);
    CleanIdempotent(JoinPath([out, rel]));
  }

  /** A planned file lies strictly below the output directory. */
  lemma DestinationInside(out: string, a: Artifact)
    requires out != "" && Destination(out, a).Some?
    ensures exists names :: names != [] && Names(names)
                            && Parse(Destination(out, a).value) == Path(Parse(out).rooted, Parse(out).segs + names)
  {
    LocalPathInside(out, Trim(Slashed(Candidate(a))));
  }

  type Locator = Artifact -> Option<string>

  /** The artifacts have destinations, all different, and none is blocked. */
  ghost predicate Plannable(locate: Locator, blocked: string -> bool, artifacts: seq<Artifact>) {
    && (forall a <- artifacts :: locate(a).Some? && !blocked(locate(a).value))
    && forall i, j :: 0 <= i < j < |artifacts| ==> locate(artifacts[i]) != locate(artifacts[j])
  }

  ghost predicate PlanFor(locate: Locator, artifacts: seq<Artifact>, plan: seq<Planned>) {
    && |plan| == |artifacts|
    && forall i :: 0 <= i < |plan| ==> plan[i].artifact == artifacts[i] && locate(artifacts[i]) == Some(plan[i].destination)
  }

  /** The loop of `planBulkArtifactDownloads`: a plan lists every artifact once, in order,
      and exists exactly when no destination is missing, taken twice or blocked. */
  method PlanWith(locate: Locator, blocked: string -> bool, artifacts: seq<Artifact>) returns (r: Option<seq<Planned>>)
    ensures r.Some? <==> Plannable(locate, blocked, artifacts)
    ensures r.Some? ==> PlanFor(locate, artifacts, r.value)
  {
    var plan: seq<Planned>, seen: set<string> := [], {};
    var i := 0;
    while i < |artifacts|
      invariant 0 <= i <= |artifacts| && PlanFor(locate, artifacts[..i], plan)
      invariant forall d :: d in seen <==> exists j :: 0 <= j < i && locate(artifacts[j]) == Some(d)
      invariant forall j :: 0 <= j < i ==> locate(artifacts[j]).Some? && !blocked(locate(artifacts[j]).value)
      invariant forall j, k :: 0 <= j < k < i ==> locate(artifacts[j]) != locate(artifacts[k])
    {
      var destination := locate(artifacts[i]);
      assert artifacts[i] in artifacts;
      if destination.None? || destination.value in seen || blocked(destination.value) { return None; }
      seen := seen + {destination.value};
      plan := plan + [Planned(artifacts[i], destination.value)];
      i := i + 1;
    }
    TakeAll(artifacts);
    return Some(plan);
  }

  /** `planBulkArtifactDownloads` */
  method PlanBulkDownloads(out: string, artifacts: seq<Artifact>, stat: string -> Stat, force: bool) returns (r: Option<seq<Planned>>)
    ensures r.Some? <==>
            Trim(out) != "" && Plannable(a => Destination(Trim(out), a), d => Blocks(stat(d), force), artifacts)
    ensures r.Some? ==> PlanFor(a => Destination(Trim(out), a), artifacts, r.value)
  {
    var dir := Trim(out);
    if dir == "" { return None; }
    r := PlanWith(a => Destination(dir, a), d => Blocks(stat(d), force), artifacts);
  }
}
