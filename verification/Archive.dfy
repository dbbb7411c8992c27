/** The tree writer and the tree reader of the cache: a directory tree becomes a
    stream of tar entries, and a stream of tar entries is replayed below a
    destination directory. Compression is the identity. */
module Archive {
  import opened Text
  import opened Paths

  type Bytes = seq<bv8>

  /** A directory tree as the walk sees it; children are listed in the order the
      directory is read. */
  datatype Tree = File(content: Bytes) | Dir(children: seq<Child>) | Symlink | Special

  datatype Child = Child(name: string, node: Tree)

  datatype Kind = DirEntry | RegEntry | OtherEntry

  /** One entry of a tar stream. */
  datatype Entry = Entry(name: string, kind: Kind, content: Bytes)

  datatype WalkError = SymlinkFound | UnsupportedType

  /** What a path holds on disk. */
  datatype FsNode = DirNode | FileNode(content: Bytes)

  type Fs = map<Path, FsNode>

  // ---------------------------------------------------------------------------
  // Trees

  /** Every name names something and no directory lists a name twice. */
  ghost predicate Valid(t: Tree)
    decreases t
  {
    t.Dir? ==>
      && (forall c <- t.children :: Name(c.name) && Valid(c.node))
      && (forall i, j :: 0 <= i < j < |t.children| ==> t.children[i].name != t.children[j].name)
  }

  /** Only directories and regular files. */
  predicate Storable(t: Tree)
    decreases t
  {
    match t
    case File(_) => true
    case Dir(children) => forall c <- children :: Storable(c.node)
    case Symlink => false
    case Special => false
  }

  /** No name contains a backslash. */
  predicate Portable(t: Tree)
    decreases t
  {
    t.Dir? ==> forall c <- t.children :: '\\' !in c.name && Portable(c.node)
  }

  /** The node a tree holds at a relative path. */
  function Lookup(t: Tree, rel: seq<string>): Option<Tree>
    decreases |rel|
  {
    if rel == [] then Some(t)
    else if !t.Dir? then None
    else LookupIn(t.children, rel)
  }

  function LookupIn(children: seq<Child>, rel: seq<string>): Option<Tree>
    requires rel != []
    decreases |rel|, |children|
  {
    if children == [] then None
    else if children[0].name == rel[0] then Lookup(children[0].node, rel[1..])
    else LookupIn(children[1..], rel)
  }

  // ---------------------------------------------------------------------------
  // Writing

  /** The entries of a node found at the relative path `rel`. */
  function NodeEntries(rel: seq<string>, t: Tree): seq<Entry>
    decreases t
  {
    match t
    case File(content) => [Entry(Join(rel, '/'), RegEntry, content)]
    case Dir(children) => [Entry(Join(rel, '/') + "/", DirEntry, [])] + ChildEntries(rel, children)
    case Symlink => []
    case Special => []
  }

  function ChildEntries(rel: seq<string>, children: seq<Child>): seq<Entry>
    decreases children
  {
    if children == [] then []
    else NodeEntries(rel + [children[0].name], children[0].node) + ChildEntries(rel, children[1..])
  }

  /** The walk below one node, appending to what is written already. */
  method WalkNode(rel: seq<string>, t: Tree, written: seq<Entry>) returns (r: Result<seq<Entry>, WalkError>)
    ensures Storable(t) ==> r == Ok(written + NodeEntries(rel, t))
    ensures !Storable(t) ==> r.Err?
    decreases t
  {
    match t
    case Symlink => r := Err(SymlinkFound);
    case Special => r := Err(UnsupportedType);
    case File(content) => r := Ok(written + [Entry(Join(rel, '/'), RegEntry, content)]);
    case Dir(children) =>
      var head := [Entry(Join(rel, '/') + "/", DirEntry, [])];
      r := WalkChildren(rel, children, written + head);
      assert written + head + ChildEntries(rel, children) == written + NodeEntries(rel, t);
  }

  method WalkChildren(rel: seq<string>, children: seq<Child>, written: seq<Entry>)
    returns (r: Result<seq<Entry>, WalkError>)
    ensures (forall c <- children :: Storable(c.node)) ==> r == Ok(written + ChildEntries(rel, children))
    ensures !(forall c <- children :: Storable(c.node)) ==> r.Err?
    decreases children
  {
    var out := written;
    var i := 0;
    assert children[0..] == children;
    while i < |children|
      invariant 0 <= i <= |children|
      invariant forall c <- children[..i] :: Storable(c.node)
      invariant out + ChildEntries(rel, children[i..]) == written + ChildEntries(rel, children)
    {
      var c := children[i];
      assert c in children;
      var step := WalkNode(rel + [c.name], c.node, out);
      if step.Err? { return step; }
      ChildEntriesFrom(rel, children, i);
      ConcatAssoc(out, NodeEntries(rel + [c.name], c.node), ChildEntries(rel, children[i + 1..]));
      out := step.value;
      i := i + 1;
    }
    assert children[..i] == children && children[i..] == [];
    assert out + [] == out;
    r := Ok(out);
  }

  lemma ChildEntriesFrom(rel: seq<string>, children: seq<Child>, i: nat)
    requires i < |children|
    ensures ChildEntries(rel, children[i..]) ==
            NodeEntries(rel + [children[i].name], children[i].node) + ChildEntries(rel, children[i + 1..])
  {
    assert children[i..][1..] == children[i + 1..];
  }

  /** `writeTarGz`: the walk skips the source root itself, so a root that is a plain
      file archives as nothing. It fails exactly on trees it cannot store. */
  method WriteTarGz(source: Tree) returns (r: Result<seq<Entry>, WalkError>)
    ensures source.Dir? && Storable(source) ==> r == Ok(ChildEntries([], source.children))
    ensures source.Dir? && !Storable(source) ==> r.Err?
    ensures source.File? || source.Special? ==> r == Ok([])
    ensures source.Symlink? ==> r == Err(SymlinkFound)
  {
    match source
    case Symlink => r := Err(SymlinkFound);
    case Dir(children) =>
      r := WalkChildren([], children, []);
      assert [] + ChildEntries([], children) == ChildEntries([], children);
    case File(_) => r := Ok([]);
    case Special => r := Ok([]);
  }

  // ---------------------------------------------------------------------------
  // Reading: what each step does to the files on disk

  /** `os.MkdirAll` */
  function MakeDirs(fs: Fs, p: Path): (Fs, bool)
    decreases |p.segs|
  {
    if p in fs then (fs, fs[p].DirNode?)
    else if p.segs == [] then (fs[p := DirNode], true)
    else
      var (above, ok) := MakeDirs(fs, Parent(p));
      if ok then (above[p := DirNode], true) else (above, false)
  }

  /** `os.OpenFile` with create and truncate, then writing the content. */
  function PutFile(fs: Fs, p: Path, content: Bytes): (Fs, bool) {
    if p in fs && fs[p].DirNode? then (fs, false) else (fs[p := FileNode(content)], true)
  }

  /** Replaying one entry whose name was resolved. */
  function ExtractAt(fs: Fs, target: Result<Path, PathError>, e: Entry): (Fs, bool) {
    match target
    case Err(_) => (fs, false)
    case Ok(at) =>
      match e.kind
      case DirEntry => MakeDirs(fs, at)
      case RegEntry =>
        var (above, ok) := MakeDirs(fs, Parent(at));
        if ok then PutFile(above, at, e.content) else (above, false)
      case OtherEntry => (fs, false)
  }

  function Resolve(root: string, name: string): Result<Path, PathError> {
    match SafeExtractPath(root, name)
    case Err(e) => Err(e)
    case Ok(target) => Ok(Parse(target))
  }

  function ExtractEntry(fs: Fs, root: string, e: Entry): (Fs, bool) {
    ExtractAt(fs, Resolve(root, e.name), e)
  }

  function ExtractAll(fs: Fs, root: string, entries: seq<Entry>): (Fs, bool)
    decreases |entries|
  {
    if entries == [] then (fs, true)
    else
      var (next, ok) := ExtractEntry(fs, root, entries[0]);
      if ok then ExtractAll(next, root, entries[1..]) else (next, false)
  }

  class Disk {
    var fs: Fs

    constructor (start: Fs)
      ensures fs == start
    {
      fs := start;
    }

    method MkdirAll(p: Path) returns (ok: bool)
      modifies this
      ensures (fs, ok) == MakeDirs(old(fs), p)
      decreases |p.segs|
    {
      if p in fs { return fs[p].DirNode?; }
      ok := true;
      if p.segs != [] { ok := MkdirAll(Parent(p)); }
      if ok { fs := fs[p := DirNode]; }
    }

    /** `extractTarGz`: replay the entries, stopping at the first that fails. */
    method ExtractTarGz(root: string, entries: seq<Entry>) returns (ok: bool)
      modifies this
      ensures (fs, ok) == ExtractAll(old(fs), root, entries)
    {
      var i := 0;
      assert entries[0..] == entries;
      while i < |entries|
        invariant 0 <= i <= |entries|
        invariant ExtractAll(fs, root, entries[i..]) == ExtractAll(old(fs), root, entries)
      {
        var e := entries[i];
        assert entries[i..][0] == e && entries[i..][1..] == entries[i + 1..];
        var target := SafeExtractPath(root, e.name);
        if target.Err? { return false; }
        var at := Parse(target.value);
        match e.kind {
          case DirEntry =>
            var made := MkdirAll(at);
            if !made { return false; }
          case RegEntry =>
            var made := MkdirAll(Parent(at));
            if !made { return false; }
            if at in fs && fs[at].DirNode? { return false; }
            fs := fs[at := FileNode(e.content)];
          case OtherEntry => return false;
        }
        i := i + 1;
      }
      return true;
    }
  }

  // ---------------------------------------------------------------------------
  // Replaying a stream in two parts

  lemma {:induction false} ExtractConcat(fs: Fs, root: string, a: seq<Entry>, b: seq<Entry>)
    requires ExtractAll(fs, root, a).1
    ensures ExtractAll(fs, root, a + b) == ExtractAll(ExtractAll(fs, root, a).0, root, b)
    decreases |a|
  {
    if a == [] {
      assert a + b == b;
    } else {
      assert (a + b)[1..] == a[1..] + b;
      ExtractConcat(ExtractEntry(fs, root, a[0]).0, root, a[1..], b);
    }
  }

  // ---------------------------------------------------------------------------
  // A tree laid out on disk

  function Image(t: Tree): FsNode { if t.File? then FileNode(t.content) else DirNode }

  function Under(at: Path, rel: seq<string>): Path { at.(segs := at.segs + rel) }

  /** The files and directories of a node placed at a path. */
  function Laid(at: Path, t: Tree): Fs
    decreases t
  {
    match t
    case File(content) => map[at := FileNode(content)]
    case Dir(children) => map[at := DirNode] + LaidIn(at, children)
    case Symlink => map[]
    case Special => map[]
  }

  function LaidIn(at: Path, children: seq<Child>): Fs
    decreases children
  {
    if children == [] then map[]
    else Laid(Under(at, [children[0].name]), children[0].node) + LaidIn(at, children[1..])
  }

  predicate Inside(at: Path, p: Path) { p.rooted == at.rooted && at.segs <= p.segs }

  lemma {:induction false} LaidKeys(at: Path, t: Tree, p: Path)
    requires p in Laid(at, t)
    ensures Inside(at, p)
    decreases t
  {
    if t.Dir? && p != at { LaidInKeys(at, t.children, p); }
  }

  lemma {:induction false} LaidInKeys(at: Path, children: seq<Child>, p: Path)
    requires p in LaidIn(at, children)
    ensures Inside(at, p) && |p.segs| > |at.segs|
    ensures exists c <- children :: c.name == p.segs[|at.segs|]
    decreases children
  {
    var c := children[0];
    var low := Under(at, [c.name]);
    if p in LaidIn(at, children[1..]) {
      LaidInKeys(at, children[1..], p);
    } else {
      LaidKeys(low, c.node, p);
      assert p.segs[|at.segs|] == low.segs[|at.segs|] == c.name;
      assert at.segs == low.segs[..|at.segs|];
    }
  }

  /** What is laid out is what looking the path up in the tree finds. */
  lemma {:induction false} LaidMeaning(at: Path, t: Tree, rel: seq<string>)
    requires Valid(t) && Storable(t)
    ensures Under(at, rel) in Laid(at, t) <==> Lookup(t, rel).Some?
    ensures Lookup(t, rel).Some? ==>
              Laid(at, t)[Under(at, rel)] == Image(Lookup(t, rel).value)
    decreases t, |rel|, 1
  {
    if rel == [] {
      assert Under(at, rel) == at;
      if t.Dir? && at in LaidIn(at, t.children) { LaidInKeys(at, t.children, at); }
    } else if t.Dir? {
      LaidInMeaning(at, t.children, rel);
    }
  }

  lemma {:induction false} LaidInMeaning(at: Path, children: seq<Child>, rel: seq<string>)
    requires Valid(Dir(children)) && Storable(Dir(children)) && rel != []
    ensures Under(at, rel) in LaidIn(at, children) <==> LookupIn(children, rel).Some?
    ensures LookupIn(children, rel).Some? ==>
              LaidIn(at, children)[Under(at, rel)] == Image(LookupIn(children, rel).value)
    decreases children, |rel|, 0
  {
    if children != [] {
      var c := children[0];
      var rest := children[1..];
      var low := Under(at, [c.name]);
      assert c in children;
      assert Valid(Dir(rest)) && Storable(Dir(rest)) by {
        forall d | d in rest ensures d in children {}
      }
      LaidInMeaning(at, rest, rel);
      var p := Under(at, rel);
      if c.name == rel[0] {
        assert p == Under(low, rel[1..]) by { assert at.segs + rel == at.segs + [rel[0]] + rel[1..]; }
        LaidMeaning(low, c.node, rel[1..]);
        if p in LaidIn(at, rest) {
          LaidInKeys(at, rest, p);
          var d :| d in rest && d.name == p.segs[|at.segs|];
          assert p.segs[|at.segs|] == rel[0];
          assert exists j :: 1 <= j < |children| && children[j].name == c.name;
        }
      } else {
        assert p in Laid(low, c.node) ==> Inside(low, p) by {
          if p in Laid(low, c.node) { LaidKeys(low, c.node, p); }
        }
        assert p.segs[|at.segs|] == rel[0] && low.segs[|at.segs|] == c.name;
      }
    }
  }

  // ---------------------------------------------------------------------------
  // The round trip

  /** Where the two trees share a path they agree on what kind of thing is there. */
  ghost predicate NoClash(fs: Fs, laid: Fs) {
    forall p :: p in fs && p in laid ==> fs[p].DirNode? == laid[p].DirNode?
  }

  ghost predicate IsDir(fs: Fs, p: Path) { p in fs && fs[p].DirNode? }

  ghost predicate PlainNames(rel: seq<string>) {
    Names(rel) && forall s <- rel :: '\\' !in s
  }

  lemma {:induction false} JoinPlain(rel: seq<string>)
    requires forall s <- rel :: '\\' !in s
    ensures '\\' !in Join(rel, '/')
  {
    if |rel| > 1 { JoinPlain(rel[1..]); }
  }

  /** The name written for a relative path is read back as that path, with or
      without the slash that marks a directory. */
  lemma EntryTarget(root: string, rel: seq<string>, name: string)
    requires PlainNames(rel) && rel != []
    requires name == Join(rel, '/') || name == Join(rel, '/') + "/"
    ensures Resolve(root, name) == Ok(Under(Parse(root), rel))
  {
    var text := Join(rel, '/');
    JoinPlain(rel);
    SlashedPlain(name);
    var p := Path(false, rel);
    assert Normal(p) by {
      forall i | 0 <= i < |rel| ensures Name(rel[i]) { assert rel[i] in rel; }
    }
    RenderParse(p);
    assert Parse(name) == p by {
      if name != text {
        assert name == text + ['/'] + "";
        SplitConcat(text, '/', "");
        JoinHead(rel, '/');
        assert rel[0] in rel;
        PushAllConcat(false, [], Split(text, '/'), Split("", '/'));
        assert Split("", '/') == [""];
        assert name[0] == text[0];
      }
    }
    assert !Climbs(p) by { assert rel[0] in rel; }
    SafeExtractContained(root, name);
  }

  lemma UnderParent(at: Path, rel: seq<string>)
    requires rel != []
    ensures Parent(Under(at, rel)) == Under(at, rel[..|rel| - 1])
  {
    assert (at.segs + rel)[..|at.segs + rel| - 1] == at.segs + rel[..|rel| - 1];
  }

  /** One missing directory level. */
  lemma MakeOne(fs: Fs, p: Path)
    requires p.segs != [] && IsDir(fs, Parent(p)) && (p in fs ==> fs[p].DirNode?)
    ensures MakeDirs(fs, p) == (fs[p := DirNode], true)
  {
    assert p in fs ==> fs[p := DirNode] == fs;
  }

  /** Replaying the entries of one node lays that node out. */
  lemma {:induction false} ExtractNode(fs: Fs, root: string, rel: seq<string>, t: Tree)
    requires PlainNames(rel) && rel != []
    requires Valid(t) && Storable(t) && Portable(t)
    requires IsDir(fs, Parent(Under(Parse(root), rel)))
    requires NoClash(fs, Laid(Under(Parse(root), rel), t))
    ensures ExtractAll(fs, root, NodeEntries(rel, t)) == (fs + Laid(Under(Parse(root), rel), t), true)
    decreases t, 1
  {
    var at := Under(Parse(root), rel);
    match t
    case File(content) =>
      ExtractFile(fs, root, rel, content);
    case Dir(children) =>
      var made := fs[at := DirNode];
      EntryTarget(root, rel, Join(rel, '/') + "/");
      DirAt(fs, at, children, NodeEntries(rel, t)[0]);
      ExtractChildren(made, root, rel, children);
      assert NodeEntries(rel, t)[1..] == ChildEntries(rel, children);
  }

  lemma ExtractOne(fs: Fs, root: string, e: Entry)
    ensures ExtractAll(fs, root, [e]) == ExtractEntry(fs, root, e)
  {
    var (next, ok) := ExtractEntry(fs, root, e);
    assert [e][1..] == [];
    assert ExtractAll(next, root, []) == (next, true);
  }

  lemma FileAt(fs: Fs, at: Path, e: Entry)
    requires e.kind.RegEntry? && IsDir(fs, Parent(at)) && !IsDir(fs, at)
    ensures ExtractAt(fs, Ok(at), e) == (fs + Laid(at, File(e.content)), true)
  {
    assert MakeDirs(fs, Parent(at)) == (fs, true);
    assert fs[at := FileNode(e.content)] == fs + Laid(at, File(e.content));
  }

  lemma ExtractFile(fs: Fs, root: string, rel: seq<string>, content: Bytes)
    requires PlainNames(rel) && rel != []
    requires IsDir(fs, Parent(Under(Parse(root), rel)))
    requires !IsDir(fs, Under(Parse(root), rel))
    ensures ExtractAll(fs, root, NodeEntries(rel, File(content))) ==
            (fs + Laid(Under(Parse(root), rel), File(content)), true)
  {
    var e := Entry(Join(rel, '/'), RegEntry, content);
    EntryTarget(root, rel, e.name);
    FileAt(fs, Under(Parse(root), rel), e);
    ExtractOne(fs, root, e);
  }

  /** A directory made, with room for its children. */
  lemma DirAt(fs: Fs, at: Path, children: seq<Child>, e: Entry)
    requires e.kind.DirEntry? && at.segs != []
    requires IsDir(fs, Parent(at)) && NoClash(fs, Laid(at, Dir(children)))
    ensures var made := fs[at := DirNode];
            && ExtractAt(fs, Ok(at), e) == (made, true)
            && NoClash(made, LaidIn(at, children))
            && made + LaidIn(at, children) == fs + Laid(at, Dir(children))
  {
    LaidDir(at, children);
    assert at in Laid(at, Dir(children));
    MakeOne(fs, at);
    var laid := LaidIn(at, children);
    assert Laid(at, Dir(children)) == map[at := DirNode] + laid;
    forall p | p in fs[at := DirNode] && p in laid
      ensures fs[at := DirNode][p].DirNode? == laid[p].DirNode?
    {
      assert p in Laid(at, Dir(children));
    }
  }

  lemma LaidDir(at: Path, children: seq<Child>)
    ensures at !in LaidIn(at, children)
    ensures Laid(at, Dir(children))[at] == DirNode
  {
    if at in LaidIn(at, children) { LaidInKeys(at, children, at); }
  }

  lemma LaterSiblings(at: Path, children: seq<Child>, p: Path)
    requires Valid(Dir(children)) && children != [] && p in LaidIn(at, children[1..])
    ensures |p.segs| > |at.segs| && p.segs[|at.segs|] != children[0].name
  {
    var rest := children[1..];
    LaidInKeys(at, rest, p);
    var d :| d in rest && d.name == p.segs[|at.segs|];
    var j :| 0 <= j < |rest| && rest[j] == d;
    assert children[j + 1] == d;
  }

  lemma SiblingsDisjoint(at: Path, children: seq<Child>)
    requires Valid(Dir(children)) && children != []
    ensures Laid(Under(at, [children[0].name]), children[0].node).Keys !! LaidIn(at, children[1..]).Keys
    ensures at !in Laid(Under(at, [children[0].name]), children[0].node)
  {
    var c, rest := children[0], children[1..];
    var low := Under(at, [c.name]);
    forall p | p in Laid(low, c.node)
      ensures p !in LaidIn(at, rest) && p != at
    {
      LaidKeys(low, c.node, p);
      assert p.segs[|at.segs|] == low.segs[|at.segs|] == c.name;
      if p in LaidIn(at, rest) { LaterSiblings(at, children, p); }
    }
  }

  /** What the rest of the children may assume once the first child is in place. */
  lemma FirstChildPlaced(fs: Fs, at: Path, children: seq<Child>)
    requires Valid(Dir(children)) && children != []
    requires IsDir(fs, at) && NoClash(fs, LaidIn(at, children))
    ensures var first := Laid(Under(at, [children[0].name]), children[0].node);
            var rest := LaidIn(at, children[1..]);
            && NoClash(fs, first)
            && IsDir(fs + first, at)
            && NoClash(fs + first, rest)
            && fs + first + rest == fs + LaidIn(at, children)
  {
    SiblingsDisjoint(at, children);
    var first := Laid(Under(at, [children[0].name]), children[0].node);
    var rest := LaidIn(at, children[1..]);
    assert LaidIn(at, children) == first + rest;
    assert forall p <- first :: p in first + rest && (first + rest)[p] == first[p];
    assert forall p <- rest :: p in first + rest && (first + rest)[p] == rest[p];
  }

  lemma TailOfTree(children: seq<Child>)
    requires Valid(Dir(children)) && Storable(Dir(children)) && children != []
    ensures Valid(Dir(children[1..])) && Storable(Dir(children[1..]))
    ensures Portable(Dir(children)) ==> Portable(Dir(children[1..]))
    ensures Name(children[0].name) && Valid(children[0].node) && Storable(children[0].node)
    ensures Portable(Dir(children)) ==> '\\' !in children[0].name && Portable(children[0].node)
  {
    assert children[0] in children;
    forall d | d in children[1..] ensures d in children {}
  }

  lemma {:induction false} ExtractChildren(fs: Fs, root: string, rel: seq<string>, children: seq<Child>)
    requires PlainNames(rel)
    requires Valid(Dir(children)) && Storable(Dir(children)) && Portable(Dir(children))
    requires IsDir(fs, Under(Parse(root), rel))
    requires NoClash(fs, LaidIn(Under(Parse(root), rel), children))
    ensures ExtractAll(fs, root, ChildEntries(rel, children)) ==
            (fs + LaidIn(Under(Parse(root), rel), children), true)
    decreases children, 0
  {
    var at := Under(Parse(root), rel);
    if children == [] {
      assert fs + LaidIn(at, children) == fs;
    } else {
      var c, rest := children[0], children[1..];
      var down := rel + [c.name];
      TailOfTree(children);
      FirstChildPlaced(fs, at, children);
      ChildPath(root, rel, c.name);
      var mid := fs + Laid(Under(at, [c.name]), c.node);
      ExtractNode(fs, root, down, c.node);
      ExtractChildren(mid, root, rel, rest);
      ExtractConcat(fs, root, NodeEntries(down, c.node), ChildEntries(rel, rest));
    }
  }

  lemma ChildPath(root: string, rel: seq<string>, name: string)
    requires PlainNames(rel) && Name(name) && '\\' !in name
    ensures PlainNames(rel + [name])
    ensures Under(Under(Parse(root), rel), [name]) == Under(Parse(root), rel + [name])
    ensures Parent(Under(Parse(root), rel + [name])) == Under(Parse(root), rel)
  {
    assert Parse(root).segs + rel + [name] == Parse(root).segs + (rel + [name]);
    UnderParent(Parse(root), rel + [name]);
    assert (rel + [name])[..|rel|] == rel;
  }

  /** Extracting what was written over an existing destination gives the old files
      overridden by the archived ones. */
  lemma ExtractOverlays(fs: Fs, root: string, children: seq<Child>)
    requires Valid(Dir(children)) && Storable(Dir(children)) && Portable(Dir(children))
    requires IsDir(fs, Parse(root)) && NoClash(fs, LaidIn(Parse(root), children))
    ensures ExtractAll(fs, root, ChildEntries([], children)) == (fs + LaidIn(Parse(root), children), true)
  {
    assert Under(Parse(root), []) == Parse(root) by { assert Parse(root).segs + [] == Parse(root).segs; }
    ExtractChildren(fs, root, [], children);
  }

  // ---------------------------------------------------------------------------
  // What any archive can touch

  /** Every file has a directory above it. */
  ghost predicate WellFormed(fs: Fs) {
    forall p :: p in fs && p.segs != [] ==> IsDir(fs, Parent(p))
  }

  /** Below `at`, and the names below it are free of backslashes. */
  ghost predicate PlainBelow(at: Path, p: Path) {
    Inside(at, p) && |p.segs| > |at.segs| && forall s <- p.segs[|at.segs|..] :: '\\' !in s
  }

  /** A step that only adds or rewrites files below `at`, with plain names. */
  ghost predicate Confined(at: Path, before: Fs, after: Fs) {
    && (forall p :: p in before ==> p in after && (after[p] == before[p] || PlainBelow(at, p)))
    && (forall p :: p in after && p !in before ==> PlainBelow(at, p))
    && (forall p :: IsDir(before, p) ==> IsDir(after, p))
  }

  /** The directory `k` names below the start of a path. */
  function Above(p: Path, k: nat): Path
    requires k <= |p.segs|
  {
    p.(segs := p.segs[..k])
  }

  lemma AboveParent(p: Path)
    requires p.segs != []
    ensures Above(p, |p.segs|) == p
    ensures forall k :: 0 <= k < |p.segs| ==> Above(Parent(p), k) == Above(p, k)
  {
    assert p.segs[..|p.segs|] == p.segs;
    forall k | 0 <= k < |p.segs| ensures Above(Parent(p), k) == Above(p, k) {
      assert p.segs[..|p.segs| - 1][..k] == p.segs[..k];
    }
  }

  /** What exists has directories above it. */
  lemma {:induction false} DirsAbove(fs: Fs, p: Path)
    requires WellFormed(fs) && p in fs
    ensures forall k :: 0 <= k < |p.segs| ==> IsDir(fs, Above(p, k))
    decreases |p.segs|
  {
    if p.segs != [] {
      AboveParent(p);
      DirsAbove(fs, Parent(p));
      assert Above(Parent(p), |p.segs| - 1) == Parent(p) by { AboveParent(p); }
    }
  }

  /** Making a directory succeeds exactly when no file is in the way, at the path or above
      it. Then everything at and above the path is a directory and nothing else changes;
      otherwise nothing changes at all. */
  lemma {:induction false} MakeDirsExactly(fs: Fs, p: Path)
    requires WellFormed(fs)
    ensures MakeDirs(fs, p).1 <==> forall k :: 0 <= k <= |p.segs| && Above(p, k) in fs ==> IsDir(fs, Above(p, k))
    ensures !MakeDirs(fs, p).1 ==> MakeDirs(fs, p).0 == fs
    ensures MakeDirs(fs, p).1 ==>
              && (forall k :: 0 <= k <= |p.segs| ==> IsDir(MakeDirs(fs, p).0, Above(p, k)))
              && (forall q <- fs :: q in MakeDirs(fs, p).0 && MakeDirs(fs, p).0[q] == fs[q])
              && (forall q <- MakeDirs(fs, p).0 :: q in fs || exists k :: 0 <= k <= |p.segs| && q == Above(p, k))
    decreases |p.segs|
  {
    assert Above(p, |p.segs|) == p by { assert p.segs[..|p.segs|] == p.segs; }
    if p in fs {
      DirsAbove(fs, p);
    } else if p.segs != [] {
      AboveParent(p);
      MakeDirsExactly(fs, Parent(p));
      MoreDirs(fs, p, MakeDirs(fs, Parent(p)).0, MakeDirs(fs, Parent(p)).1);
    }
  }

  lemma MoreDirs(fs: Fs, p: Path, above: Fs, ok: bool)
    requires p !in fs && p.segs != []
    requires ok <==> forall k :: 0 <= k < |p.segs| && Above(Parent(p), k) in fs ==> IsDir(fs, Above(Parent(p), k))
    requires ok ==> forall k :: 0 <= k < |p.segs| ==> IsDir(above, Above(Parent(p), k))
    requires ok ==> forall q <- fs :: q in above && above[q] == fs[q]
    requires ok ==> forall q <- above :: q in fs || exists k :: 0 <= k < |p.segs| && q == Above(Parent(p), k)
    ensures ok <==> forall k :: 0 <= k <= |p.segs| && Above(p, k) in fs ==> IsDir(fs, Above(p, k))
    ensures ok ==>
              && (forall k :: 0 <= k <= |p.segs| ==> IsDir(above[p := DirNode], Above(p, k)))
              && (forall q <- fs :: q in above[p := DirNode] && above[p := DirNode][q] == fs[q])
              && (forall q <- above[p := DirNode] :: q in fs || exists k :: 0 <= k <= |p.segs| && q == Above(p, k))
  {
    AboveParent(p);
    var made := above[p := DirNode];
    if ok {
      forall k | 0 <= k <= |p.segs| ensures IsDir(made, Above(p, k)) {
        if k < |p.segs| { assert IsDir(above, Above(Parent(p), k)); }
      }
      forall q | q in made ensures q in fs || exists k :: 0 <= k <= |p.segs| && q == Above(p, k) {
        if q == p {
          assert q == Above(p, |p.segs|);
        } else if q !in fs {
          var k :| 0 <= k < |p.segs| && q == Above(Parent(p), k);
          assert q == Above(p, k);
        }
      }
    } else {
      var k :| 0 <= k < |p.segs| && Above(Parent(p), k) in fs && !IsDir(fs, Above(Parent(p), k));
      assert Above(p, k) in fs && !IsDir(fs, Above(p, k));
    }
  }

  lemma ParentPlain(at: Path, p: Path)
    requires PlainBelow(at, p)
    ensures Parent(p) == at || PlainBelow(at, Parent(p))
  {
    var up := Parent(p);
    if |up.segs| == |at.segs| {
      assert up.segs == at.segs;
    } else {
      assert up.segs[|at.segs|..] == p.segs[|at.segs|..][..|up.segs| - |at.segs|];
    }
  }

  lemma WellFormedAdd(fs: Fs, p: Path, node: FsNode)
    requires WellFormed(fs) && p.segs != []
    requires IsDir(fs, Parent(p)) && (IsDir(fs, p) ==> node.DirNode?)
    ensures WellFormed(fs[p := node])
  {
    var c := fs[p := node];
    assert Parent(p) != p;
    forall q | q in c && q.segs != [] ensures IsDir(c, Parent(q)) {
      assert q != p ==> q in fs;
      assert IsDir(fs, Parent(q));
    }
  }

  /** Writing one file or directory below `at`. */
  lemma ConfinedAdd(at: Path, a: Fs, b: Fs, p: Path, node: FsNode)
    requires Confined(at, a, b)
    requires PlainBelow(at, p) && (IsDir(b, p) ==> node.DirNode?)
    ensures Confined(at, a, b[p := node])
  {
    var c := b[p := node];
    forall q | q in a ensures q in c && (c[q] == a[q] || PlainBelow(at, q)) {
      assert q in b;
    }
    forall q | q in c && q !in a ensures PlainBelow(at, q) {
      assert q == p || q in b;
    }
    forall q | IsDir(a, q) ensures IsDir(c, q) {
      assert IsDir(b, q);
    }
  }

  lemma {:induction false} MakeDirsConfined(fs: Fs, at: Path, p: Path)
    requires WellFormed(fs) && IsDir(fs, at) && (p == at || PlainBelow(at, p))
    ensures Confined(at, fs, MakeDirs(fs, p).0) && WellFormed(MakeDirs(fs, p).0)
    ensures MakeDirs(fs, p).1 ==> IsDir(MakeDirs(fs, p).0, p)
    decreases |p.segs|
  {
    if p !in fs {
      var up := Parent(p);
      ParentPlain(at, p);
      MakeDirsConfined(fs, at, up);
      var (above, ok) := MakeDirs(fs, up);
      if ok {
        ConfinedAdd(at, fs, above, p, DirNode);
        WellFormedAdd(above, p, DirNode);
      }
    }
  }

  /** The path an accepted entry name stands for is the root or a plain path below it. */
  lemma TargetPlain(root: string, name: string)
    requires Resolve(root, name).Ok?
    ensures Resolve(root, name).value == Parse(root) || PlainBelow(Parse(root), Resolve(root, name).value)
  {
    SafeExtractContained(root, name);
    var at, p := Parse(root), Below(root, name);
    var segs := Parse(Slashed(name)).segs;
    assert p.segs[|at.segs|..] == segs;
    SplitPartsPlain(Slashed(name), '/');
    PushedFrom(Parse(Slashed(name)).rooted, [], Split(Slashed(name), '/'));
    if segs == [] { assert p.segs == at.segs; }
  }

  lemma {:induction false} PushedFrom(rooted: bool, stack: seq<string>, segs: seq<string>)
    ensures forall s <- PushAll(rooted, stack, segs) :: s in stack || s in segs
    decreases |segs|
  {
    if segs != [] { PushedFrom(rooted, Push(rooted, stack, segs[0]), segs[1..]); }
  }

  lemma EntryConfined(fs: Fs, at: Path, target: Result<Path, PathError>, e: Entry)
    requires WellFormed(fs) && IsDir(fs, at)
    requires target.Ok? ==> target.value == at || PlainBelow(at, target.value)
    ensures Confined(at, fs, ExtractAt(fs, target, e).0)
    ensures WellFormed(ExtractAt(fs, target, e).0)
  {
    if target.Ok? && !e.kind.OtherEntry? {
      var p := target.value;
      if e.kind.DirEntry? {
        MakeDirsConfined(fs, at, p);
      } else if p != at {
        ParentPlain(at, p);
        MakeDirsConfined(fs, at, Parent(p));
        var (above, ok) := MakeDirs(fs, Parent(p));
        if ok && !IsDir(above, p) {
          ConfinedAdd(at, fs, above, p, FileNode(e.content));
          WellFormedAdd(above, p, FileNode(e.content));
        }
      }
    }
  }

  lemma ConfinedTransitive(at: Path, a: Fs, b: Fs, c: Fs)
    requires Confined(at, a, b) && Confined(at, b, c)
    ensures Confined(at, a, c)
  {
  }

  /** Whatever the archive says, extraction changes nothing outside the destination,
      creates only backslash-free names, and keeps the disk well formed. */
  lemma {:induction false} ExtractConfined(fs: Fs, root: string, entries: seq<Entry>)
    requires WellFormed(fs) && IsDir(fs, Parse(root))
    ensures Confined(Parse(root), fs, ExtractAll(fs, root, entries).0)
    ensures WellFormed(ExtractAll(fs, root, entries).0)
    decreases |entries|
  {
    if entries != [] {
      var next := ExtractEntry(fs, root, entries[0]).0;
      if Resolve(root, entries[0].name).Ok? { TargetPlain(root, entries[0].name); }
      EntryConfined(fs, Parse(root), Resolve(root, entries[0].name), entries[0]);
      if ExtractEntry(fs, root, entries[0]).1 {
        ExtractConfined(next, root, entries[1..]);
        ConfinedTransitive(Parse(root), fs, next, ExtractAll(next, root, entries[1..]).0);
      }
    }
  }

  // ---------------------------------------------------------------------------
  // Exactly when the round trip holds

  /** A tree that is not portable lays out some path with a backslash. */
  lemma {:induction false} AwkwardPath(at: Path, children: seq<Child>) returns (p: Path)
    requires Valid(Dir(children)) && Storable(Dir(children)) && !Portable(Dir(children))
    ensures p in LaidIn(at, children) && !PlainBelow(at, p)
    decreases children
  {
    var c, rest := children[0], children[1..];
    var low := Under(at, [c.name]);
    assert c in children;
    SiblingsDisjoint(at, children);
    if '\\' in c.name {
      p := low;
      assert p in Laid(low, c.node);
      assert p.segs[|at.segs|..] == [c.name];
    } else if !Portable(c.node) {
      LaidDir(low, c.node.children);
      p := AwkwardPath(low, c.node.children);
      LaidInKeys(low, c.node.children, p);
      AwkwardHigher(at, c.name, p);
    } else {
      TailOfTree(children);
      p := AwkwardPath(at, rest);
    }
  }

  lemma AwkwardHigher(at: Path, name: string, p: Path)
    requires !PlainBelow(Under(at, [name]), p)
    requires Inside(Under(at, [name]), p) && |p.segs| > |at.segs| + 1
    ensures !PlainBelow(at, p)
  {
    var low := Under(at, [name]);
    var s :| s in p.segs[|low.segs|..] && '\\' in s;
    assert p.segs[|low.segs|..] == p.segs[|at.segs|..][1..];
    assert s in p.segs[|at.segs|..];
  }

  /** Into an empty destination, extraction succeeds and gives back exactly the
      archived tree if and only if no name in it contains a backslash. */
  lemma RoundTripExactly(fs: Fs, root: string, children: seq<Child>)
    requires Valid(Dir(children)) && Storable(Dir(children))
    requires WellFormed(fs) && IsDir(fs, Parse(root))
    requires forall p :: p in fs && Inside(Parse(root), p) ==> p == Parse(root)
    ensures ExtractAll(fs, root, ChildEntries([], children)) == (fs + LaidIn(Parse(root), children), true)
            <==> Portable(Dir(children))
  {
    var at := Parse(root);
    forall p | p in LaidIn(at, children)
      ensures Inside(at, p) && p !in fs
    {
      LaidInKeys(at, children, p);
    }
    if Portable(Dir(children)) {
      ExtractOverlays(fs, root, children);
    } else {
      var p := AwkwardPath(at, children);
      ExtractConfined(fs, root, ChildEntries([], children));
      assert p in fs + LaidIn(at, children);
    }
  }

  /** The smallest tree that does not survive: one empty file named `a\\b`. */
  lemma BackslashDoesNotSurvive(fs: Fs, root: string, children: seq<Child>)
    requires children == [Child("a\\b", File([]))]
    requires WellFormed(fs) && IsDir(fs, Parse(root))
    requires forall p :: p in fs && Inside(Parse(root), p) ==> p == Parse(root)
    ensures ExtractAll(fs, root, ChildEntries([], children)) != (fs + LaidIn(Parse(root), children), true)
  {
    var c := children[0];
    assert c in children && c.name[1] == '\\';
    RoundTripExactly(fs, root, children);
  }
}
