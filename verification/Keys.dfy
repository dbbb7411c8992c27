/** Cache keys: the fingerprint of a list of workspace files and the key of a cache
    request. Hashing and the encoding of a request are parameters. */
module Keys {
  import opened Text
  import opened Paths
  import opened Sorting

  type Hash = string -> string

  // ---------------------------------------------------------------------------
  // Reading the fingerprint files

  datatype ReadResult = Missing | Unreadable(error: string) | Data(bytes: string)

  datatype FileEntry = FileEntry(path: string, data: string)

  /** What one listed file contributes: nothing, an entry, or an error. */
  datatype Loaded = Skipped | Failed(error: string) | Found(entry: FileEntry)

  /** Blank names, names outside the workspace and missing files are passed over. */
  function LoadFile(root: string, read: string -> ReadResult, rel: string): Loaded {
    var trimmed := Trim(rel);
    if trimmed == "" then Skipped
    else
      var resolved := SecureJoin(root, trimmed);
      if resolved.Err? then Skipped
      else
        match read(resolved.value)
        case Missing => Skipped
        case Unreadable(error) => Failed(error)
        case Data(bytes) => Found(FileEntry(trimmed, bytes))
  }

  type Loader = string -> Loaded

  function LoaderOf(root: string, read: string -> ReadResult): Loader { rel => LoadFile(root, read, rel) }

  /** Entries of one path hold the same data. */
  ghost predicate Functional(load: Loader) {
    forall a, b :: load(a).Found? && load(b).Found? && load(a).entry.path == load(b).entry.path ==> load(a) == load(b)
  }

  lemma LoaderFunctional(root: string, read: string -> ReadResult)
    ensures Functional(LoaderOf(root, read))
  {
  }

  // ---------------------------------------------------------------------------
  // The fingerprint

  datatype FingerprintError = RootRequired | NoFilesFound | ReadFailed(error: string)

  datatype Fingerprint = Fingerprint(digest: string, files: seq<string>)

  /** The entries of the files that were found, in listed order. */
  function Entries(load: Loader, files: seq<string>): seq<FileEntry> {
    if files == [] then []
    else
      var front, last := Entries(load, files[..|files| - 1]), load(files[|files| - 1]);
      if last.Found? then front + [last.entry] else front
  }

  /** What is hashed: every path and every content, each followed by a line feed. */
  function Stream(entries: seq<FileEntry>): string {
    if entries == [] then "" else entries[0].path + ("\n" + (entries[0].data + ("\n" + Stream(entries[1..]))))
  }

  function PathsOf(entries: seq<FileEntry>): (r: seq<string>)
    ensures |r| == |entries| && forall i :: 0 <= i < |r| ==> r[i] == entries[i].path
  {
    seq(|entries|, i requires 0 <= i < |entries| => entries[i].path)
  }

  predicate PathLe(a: FileEntry, b: FileEntry) { StringLe(a.path, b.path) }

  function Digested(hash: Hash, entries: seq<FileEntry>): Fingerprint { Fingerprint(hash(Stream(entries)), PathsOf(entries)) }

  /** `sort.Slice` promises no more than this: some sorted permutation. */
  method SortByPath(entries: seq<FileEntry>) returns (r: seq<FileEntry>)
    ensures multiset(r) == multiset(entries) && Sorted(r, PathLe)
  {
    r := Sort(entries, PathLe);
    SortPermutes(entries, PathLe);
    PathOrder();
    SortSorted(entries, PathLe);
  }

  lemma PathOrder()
    ensures TotalPreorder(PathLe)
  {
    forall a, b ensures PathLe(a, b) || PathLe(b, a) { StringLeTotal(a.path, b.path); }
    forall a, b, c | PathLe(a, b) && PathLe(b, c) ensures PathLe(a, c) { StringLeTransitive(a.path, b.path, c.path); }
  }

  method Digest(hash: Hash, entries: seq<FileEntry>) returns (r: Fingerprint)
    ensures r == Digested(hash, entries)
  {
    var written, seen, i := "", [], 0;
    assert entries[0..] == entries;
    while i < |entries|
      invariant 0 <= i <= |entries| && written + Stream(entries[i..]) == Stream(entries)
      invariant |seen| == i && forall k :: 0 <= k < i ==> seen[k] == entries[k].path
    {
      var e := entries[i];
      seen := seen + [e.path];
      WriteEntry(written, e, Stream(entries[i + 1..]));
      assert entries[i..][1..] == entries[i + 1..];
      written := written + e.path + "\n" + e.data + "\n";
      i := i + 1;
    }
    assert written + "" == written;
    assert seen == PathsOf(entries);
    r := Fingerprint(hash(written), seen);
  }

  lemma WriteEntry(written: string, e: FileEntry, rest: string)
    ensures written + e.path + "\n" + e.data + "\n" + rest == written + (e.path + ("\n" + (e.data + ("\n" + rest))))
  {
  }

  /** The digest of the sorted entries, or the first error. */
  ghost predicate Computes(load: Loader, hash: Hash, root: string, files: seq<string>, r: Result<Fingerprint, FingerprintError>) {
    if root == "" then r == Err(RootRequired)
    else if exists f <- files :: load(f).Failed? then
      r.Err? && exists f <- files :: load(f).Failed? && r.error == ReadFailed(load(f).error)
    else if Entries(load, files) == [] then r == Err(NoFilesFound)
    else r == Ok(Digested(hash, Sort(Entries(load, files), PathLe)))
  }

  /** `ComputeFingerprint` on the files of a workspace. */
  method ComputeFingerprint(read: string -> ReadResult, hash: Hash, root: string, files: seq<string>)
    returns (r: Result<Fingerprint, FingerprintError>)
    ensures forall trimmed :: trimmed == Trim(root) ==> Computes(LoaderOf(trimmed, read), hash, trimmed, files, r)
  {
    var trimmed := Trim(root);
    LoaderFunctional(trimmed, read);
    r := FingerprintWith(LoaderOf(trimmed, read), hash, trimmed, files);
  }

  /** The same for any way of loading a file. Only the contract of the sort is used, not the order in which
      it leaves equal paths. */
  method FingerprintWith(load: Loader, hash: Hash, root: string, files: seq<string>) returns (r: Result<Fingerprint, FingerprintError>)
    requires Functional(load)
    ensures Computes(load, hash, root, files, r)
  {
    if root == "" { return Err(RootRequired); }
    var entries := ReadAll(load, files);
    if entries.Err? { return Err(entries.error); }
    if entries.value == [] { return Err(NoFilesFound); }
    var sorted := SortByPath(entries.value);
    var spec := Sort(entries.value, PathLe);
    SortPermutes(entries.value, PathLe);
    PathOrder();
    SortSorted(entries.value, PathLe);
    EntriesAntisymmetric(load, files, sorted);
    SortedUnique(sorted, spec, PathLe);
    var result := Digest(hash, sorted);
    return Ok(result);
  }

  method ReadAll(load: Loader, files: seq<string>) returns (r: Result<seq<FileEntry>, FingerprintError>)
    ensures r.Ok? <==> forall f <- files :: !load(f).Failed?
    ensures r.Ok? ==> r.value == Entries(load, files)
    ensures r.Err? ==> exists f <- files :: load(f).Failed? && r.error == ReadFailed(load(f).error)
  {
    var entries: seq<FileEntry> := [];
    var i := 0;
    while i < |files|
      invariant 0 <= i <= |files| && entries == Entries(load, files[..i])
      invariant forall f <- files[..i] :: !load(f).Failed?
    {
      TakeMore(files, i);
      var loaded := load(files[i]);
      if loaded.Failed? {
        assert files[i] in files;
        return Err(ReadFailed(loaded.error));
      }
      if loaded.Found? { entries := entries + [loaded.entry]; }
      i := i + 1;
    }
    TakeAll(files);
    return Ok(entries);
  }

  // ---------------------------------------------------------------------------
  // Independence of the file order

  lemma {:induction false} EntryFound(load: Loader, files: seq<string>, e: FileEntry)
    requires e in Entries(load, files)
    ensures exists f <- files :: load(f) == Found(e)
    decreases |files|
  {
    FrontAndLast(files);
    var front, last := files[..|files| - 1], files[|files| - 1];
    if load(last) != Found(e) {
      EntryFound(load, front, e);
      var f :| f in front && load(f) == Found(e);
      assert f in files;
    }
  }

  lemma EntriesAntisymmetric(load: Loader, files: seq<string>, sorted: seq<FileEntry>)
    requires Functional(load) && multiset(sorted) == multiset(Entries(load, files))
    ensures Antisymmetric(sorted, PathLe)
  {
    PermutationMembers(sorted, Entries(load, files));
    forall x, y | x in sorted && y in sorted && PathLe(x, y) && PathLe(y, x) ensures x == y {
      StringLeAntisymmetric(x.path, y.path);
      EntryFound(load, files, x);
      EntryFound(load, files, y);
    }
  }

  lemma {:induction false} EntriesConcat(load: Loader, a: seq<string>, b: seq<string>)
    ensures Entries(load, a + b) == Entries(load, a) + Entries(load, b)
    decreases |b|
  {
    if b == [] {
      assert a + b == a;
    } else {
      var front, last := b[..|b| - 1], b[|b| - 1];
      EntriesConcat(load, a, front);
      assert (a + b)[..|a + b| - 1] == a + front;
    }
  }

  lemma EntriesAround(load: Loader, left: seq<string>, f: string, right: seq<string>)
    ensures multiset(Entries(load, left + [f] + right)) == multiset(Entries(load, [f])) + multiset(Entries(load, left + right))
  {
    EntriesConcat(load, left, right);
    EntriesConcat(load, left + [f], right);
    EntriesConcat(load, left, [f]);
  }

  lemma {:induction false} EntriesPermuted(load: Loader, a: seq<string>, b: seq<string>)
    requires multiset(a) == multiset(b)
    ensures multiset(Entries(load, a)) == multiset(Entries(load, b))
    decreases |a|
  {
    PermutationMembers(a, b);
    if a != [] {
      TailMultiset(a);
      var f, rest := a[0], a[1..];
      assert f in b;
      var i :| 0 <= i < |b| && b[i] == f;
      WithoutMultiset(b, i);
      EntriesPermuted(load, rest, b[..i] + b[i + 1..]);
      assert a == [f] + rest;
      EntriesConcat(load, [f], rest);
      EntriesAround(load, b[..i], f, b[i + 1..]);
    }
  }

  lemma SortedEntriesAgree(load: Loader, a: seq<string>, b: seq<string>)
    requires Functional(load) && multiset(a) == multiset(b)
    ensures Sort(Entries(load, a), PathLe) == Sort(Entries(load, b), PathLe)
  {
    var x, y := Sort(Entries(load, a), PathLe), Sort(Entries(load, b), PathLe);
    EntriesPermuted(load, a, b);
    SortPermutes(Entries(load, a), PathLe);
    SortPermutes(Entries(load, b), PathLe);
    PathOrder();
    SortSorted(Entries(load, a), PathLe);
    SortSorted(Entries(load, b), PathLe);
    EntriesAntisymmetric(load, a, x);
    SortedUnique(x, y, PathLe);
  }

  /** Listing the files in another order changes neither the digest nor the list of
      files, nor whether the computation fails and why; only which of several read
      errors is reported may differ. */
  lemma FingerprintOrderFree(
    load: Loader, hash: Hash, root: string, a: seq<string>, b: seq<string>,
    r: Result<Fingerprint, FingerprintError>, s: Result<Fingerprint, FingerprintError>)
    requires Functional(load) && multiset(a) == multiset(b)
    requires Computes(load, hash, root, a, r) && Computes(load, hash, root, b, s)
    ensures r == s || (r.Err? && s.Err? && r.error.ReadFailed? && s.error.ReadFailed?)
  {
    PermutationMembers(a, b);
    EntriesPermuted(load, a, b);
    PermutationMembers(Entries(load, a), Entries(load, b));
    SortedEntriesAgree(load, a, b);
  }

  // ---------------------------------------------------------------------------
  // What a fingerprint tells apart

  ghost predicate OneLinePaths(entries: seq<FileEntry>) { forall e <- entries :: '\n' !in e.path }

  /** What is hashed, line by line: of every file its path and the lines of its content. */
  function Lines(entries: seq<FileEntry>): seq<string> {
    if entries == [] then [] else [entries[0].path] + (Split(entries[0].data, '\n') + Lines(entries[1..]))
  }

  lemma {:induction false} StreamSplit(entries: seq<FileEntry>)
    requires OneLinePaths(entries)
    ensures Split(Stream(entries), '\n') == Lines(entries) + [""]
  {
    if entries == [] {
      SplitPlain("", '\n');
    } else {
      var e, rest := entries[0], Stream(entries[1..]);
      assert e in entries;
      StreamSplit(entries[1..]);
      SplitPlain(e.path, '\n');
      ConcatAssoc(e.path, "\n", e.data + ("\n" + rest));
      ConcatAssoc(e.data, "\n", rest);
      SplitConcat(e.path, '\n', e.data + ("\n" + rest));
      SplitConcat(e.data, '\n', rest);
      ConcatAssoc(Split(e.data, '\n'), Lines(entries[1..]), [""]);
      ConcatAssoc([e.path], Split(e.data, '\n') + Lines(entries[1..]), [""]);
    }
  }

  /** The hashed text and its lines determine each other. */
  lemma LinesDetermine(a: seq<FileEntry>, b: seq<FileEntry>)
    requires OneLinePaths(a) && OneLinePaths(b)
    ensures Stream(a) == Stream(b) <==> Lines(a) == Lines(b)
  {
    StreamSplit(a);
    StreamSplit(b);
    JoinSplit(Stream(a), '\n');
    JoinSplit(Stream(b), '\n');
    AppendFront(Lines(a), "");
    AppendFront(Lines(b), "");
  }

  /** The path of a file occurs as a line where the file before it could end earlier, or
      where the file itself could begin later. */
  predicate Moves(before: FileEntry, e: FileEntry) {
    var lines, own := Split(before.data, '\n'), Split(e.data, '\n');
    e.path in lines[1..] || e.path in own[..|own| - 1]
  }

  ghost predicate Movable(entries: seq<FileEntry>) {
    exists i :: 0 < i < |entries| && Moves(entries[i - 1], entries[i])
  }

  lemma MovableTail(entries: seq<FileEntry>)
    requires |entries| > 1
    ensures Moves(entries[0], entries[1]) || Movable(entries[1..]) ==> Movable(entries)
  {
    if Movable(entries[1..]) {
      var i :| 0 < i < |entries| - 1 && Moves(entries[1..][i - 1], entries[1..][i]);
      assert Moves(entries[i], entries[i + 1]) && 0 < i + 1 < |entries|;
    }
    if Moves(entries[0], entries[1]) { assert 0 < 1 < |entries| && Moves(entries[1 - 1], entries[1]); }
  }

  lemma PathsTail(a: seq<FileEntry>, b: seq<FileEntry>)
    requires PathsOf(a) == PathsOf(b)
    ensures |a| == |b|
    ensures a != [] ==> a[0].path == b[0].path && PathsOf(a[1..]) == PathsOf(b[1..])
  {
    assert |PathsOf(a)| == |PathsOf(b)|;
    if a != [] {
      assert PathsOf(a)[0] == PathsOf(b)[0];
      forall i | 0 <= i < |a| - 1 ensures a[1..][i].path == b[1..][i].path {
        assert PathsOf(a)[i + 1] == PathsOf(b)[i + 1];
      }
    }
  }

  /** If the same paths can be found again from a later line on, some file can begin later. */
  lemma {:induction false} LaterCut(a: seq<FileEntry>, b: seq<FileEntry>, t: nat)
    requires a != [] && PathsOf(a) == PathsOf(b)
    requires 0 < t <= |Lines(a)| && Lines(a)[t..] == Lines(b)
    ensures a[0].path in Split(a[0].data, '\n')[..|Split(a[0].data, '\n')| - 1] || Movable(a)
    decreases |a|
  {
    PathsTail(a, b);
    var d, e := Split(a[0].data, '\n'), Split(b[0].data, '\n');
    var rest, other := Lines(a[1..]), Lines(b[1..]);
    assert Lines(a)[t] == Lines(b)[0] == a[0].path;
    if t < |d| {
      assert Lines(a)[t] == d[t - 1] && d[..|d| - 1][t - 1] == d[t - 1];
    } else {
      assert |Lines(a)| == 1 + |d| + |rest| && |Lines(b)| == 1 + |e| + |other|;
      var u := t + |e| - |d|;
      LaterTail([a[0].path], d, rest, [b[0].path], e, other, t);
      LaterCut(a[1..], b[1..], u);
      MovableTail(a);
      assert a[1..][0] == a[1];
    }
  }

  lemma LaterTail(p: seq<string>, d: seq<string>, rest: seq<string>, q: seq<string>, e: seq<string>, other: seq<string>, t: nat)
    requires |p| == |q| == 1 && |d| <= t <= |p + (d + rest)| && (p + (d + rest))[t..] == q + (e + other) && |e| >= 1
    ensures 0 < t + |e| - |d| <= |rest| && rest[t + |e| - |d|..] == other
  {
    var x, u := p + (d + rest), t + |e| - |d|;
    assert |x| - t == 1 + |e| + |other|;
    assert x[t..][1 + |e|..] == x[t + 1 + |e|..] && (q + (e + other))[1 + |e|..] == other;
    assert x[1 + |d|..] == rest && rest[u..] == x[1 + |d| + u..];
  }

  /** Two different contents of the same paths with the same lines: some file can begin
      earlier or later. */
  lemma {:induction false} OtherCut(a: seq<FileEntry>, b: seq<FileEntry>)
    requires PathsOf(a) == PathsOf(b) && Lines(a) == Lines(b) && a != b
    ensures Movable(a)
    decreases |a|
  {
    PathsTail(a, b);
    var d, e := Split(a[0].data, '\n'), Split(b[0].data, '\n');
    var rest, other := Lines(a[1..]), Lines(b[1..]);
    SameHead([a[0].path], d, rest, e, other);
    if |d| == |e| {
      JoinSplit(a[0].data, '\n');
      JoinSplit(b[0].data, '\n');
      assert a == [a[0]] + a[1..] && b == [b[0]] + b[1..];
      OtherCut(a[1..], b[1..]);
      MovableTail(a);
    } else if |e| < |d| {
      PathsTail(a[1..], b[1..]);
      assert other[0] == a[1].path && d[1..][|e| - 1] == d[|e|];
      MovableTail(a);
    } else {
      LaterCut(a[1..], b[1..], |e| - |d|);
      MovableTail(a);
      assert a[1..][0] == a[1];
    }
  }

  lemma SameHead(p: seq<string>, d: seq<string>, rest: seq<string>, e: seq<string>, other: seq<string>)
    requires p + (d + rest) == p + (e + other)
    ensures |d| == |e| ==> d == e && rest == other
    ensures |e| < |d| ==> other != [] && other[0] == d[|e|]
    ensures |d| < |e| ==> |e| - |d| <= |rest| && rest[|e| - |d|..] == other
  {
    var x, y := d + rest, e + other;
    assert (p + x)[|p|..] == x && (p + y)[|p|..] == y;
    assert x[|e|..] == other;
    if |d| == |e| { assert x[..|d|] == d && y[..|e|] == e && x[|d|..] == rest; }
    if |e| < |d| { assert x[|e|] == d[|e|] && y[|e|] == other[0]; }
    if |d| < |e| { assert x[|e|..] == rest[|e| - |d|..]; }
  }

  lemma {:induction false} LinesConcat(a: seq<FileEntry>, b: seq<FileEntry>)
    ensures Lines(a + b) == Lines(a) + Lines(b)
  {
    if a == [] {
      assert a + b == b;
    } else {
      assert (a + b)[1..] == a[1..] + b;
      LinesConcat(a[1..], b);
      ConcatAssoc(Split(a[0].data, '\n'), Lines(a[1..]), Lines(b));
      ConcatAssoc([a[0].path], Split(a[0].data, '\n') + Lines(a[1..]), Lines(b));
    }
  }

  lemma LinesPair(x: FileEntry, y: FileEntry)
    ensures Lines([x, y]) == [x.path] + Split(x.data, '\n') + [y.path] + Split(y.data, '\n')
  {
    assert [x, y][1..] == [y] && [y][1..] == [];
    assert Lines([y]) == [y.path] + Split(y.data, '\n');
  }

  /** The boundary between two files moved: other contents with the same lines. */
  lemma MovedPair(x: FileEntry, y: FileEntry) returns (v: FileEntry, w: FileEntry)
    requires '\n' !in y.path && Moves(x, y)
    ensures v.path == x.path && w.path == y.path && v != x && Lines([v, w]) == Lines([x, y])
  {
    var d, e := Split(x.data, '\n'), Split(y.data, '\n');
    SplitPartsPlain(x.data, '\n');
    SplitPartsPlain(y.data, '\n');
    LinesPair(x, y);
    if y.path in d[1..] {
      var j :| 0 <= j < |d| - 1 && d[1..][j] == y.path;
      v, w := MovedEarlier(x, y, d, e, j + 1);
    } else {
      var k :| 0 <= k < |e| - 1 && e[..|e| - 1][k] == y.path;
      v, w := MovedLater(x, y, d, e, k);
    }
  }

  /** Two files whose contents are these lines. */
  lemma PairOf(x: FileEntry, y: FileEntry, left: seq<string>, right: seq<string>) returns (v: FileEntry, w: FileEntry)
    requires left != [] && right != [] && PlainLines(left) && PlainLines(right)
    ensures v.path == x.path && w.path == y.path && Split(v.data, '\n') == left
    ensures Lines([v, w]) == [x.path] + left + [y.path] + right
  {
    v, w := FileEntry(x.path, Join(left, '\n')), FileEntry(y.path, Join(right, '\n'));
    SplitJoin(left, '\n');
    SplitJoin(right, '\n');
    LinesPair(v, w);
  }

  predicate PlainLines(lines: seq<string>) { forall l <- lines :: '\n' !in l }

  lemma Regroup<T>(p: seq<T>, a: seq<T>, m: seq<T>, b: seq<T>, e: seq<T>)
    ensures p + a + m + (b + m + e) == p + (a + m + b) + m + e
  {
  }

  lemma MovedEarlier(x: FileEntry, y: FileEntry, d: seq<string>, e: seq<string>, k: nat) returns (v: FileEntry, w: FileEntry)
    requires d == Split(x.data, '\n') && 0 < k < |d| && d[k] == y.path && '\n' !in y.path
    requires PlainLines(d) && PlainLines(e)
    ensures v.path == x.path && w.path == y.path && v != x
    ensures Lines([v, w]) == [x.path] + d + [y.path] + e
  {
    WithoutMultiset(d, k);
    v, w := PairOf(x, y, d[..k], d[k + 1..] + [y.path] + e);
    Regroup([x.path], d[..k], [y.path], d[k + 1..], e);
  }

  lemma MovedLater(x: FileEntry, y: FileEntry, d: seq<string>, e: seq<string>, k: nat) returns (v: FileEntry, w: FileEntry)
    requires d == Split(x.data, '\n') && k < |e| - 1 && e[k] == y.path && '\n' !in y.path
    requires PlainLines(d) && PlainLines(e)
    ensures v.path == x.path && w.path == y.path && v != x
    ensures Lines([v, w]) == [x.path] + d + [y.path] + e
  {
    WithoutMultiset(e, k);
    v, w := PairOf(x, y, d + [y.path] + e[..k], e[k + 1..]);
    Regroup([x.path], d, [y.path], e[..k], e[k + 1..]);
  }

  lemma MovedList(a: seq<FileEntry>) returns (b: seq<FileEntry>)
    requires OneLinePaths(a) && Movable(a)
    ensures b != a && PathsOf(b) == PathsOf(a) && Lines(b) == Lines(a)
  {
    var i :| 0 < i < |a| && Moves(a[i - 1], a[i]);
    var left, right := a[..i - 1], a[i + 1..];
    assert a[i] in a;
    var v, w := MovedPair(a[i - 1], a[i]);
    b := left + [v, w] + right;
    assert a == left + [a[i - 1], a[i]] + right;
    PairReplaced(left, a[i - 1], a[i], v, w, right);
  }

  lemma PairReplaced(left: seq<FileEntry>, x: FileEntry, y: FileEntry, v: FileEntry, w: FileEntry, right: seq<FileEntry>)
    requires v.path == x.path && w.path == y.path && v != x && Lines([v, w]) == Lines([x, y])
    ensures var a, b := left + [x, y] + right, left + [v, w] + right;
            b != a && PathsOf(b) == PathsOf(a) && Lines(b) == Lines(a)
  {
    var a, b := left + [x, y] + right, left + [v, w] + right;
    assert a[|left|] == x && b[|left|] == v;
    LinesConcat(left + [v, w], right);
    LinesConcat(left, [v, w]);
    LinesConcat(left + [x, y], right);
    LinesConcat(left, [x, y]);
    forall k | 0 <= k < |a| ensures PathsOf(b)[k] == PathsOf(a)[k] { }
  }

  /** One path has one content, as when the entries are read from files. */
  ghost predicate Consistent(entries: seq<FileEntry>) {
    forall x, y :: x in entries && y in entries && x.path == y.path ==> x == y
  }

  /** No other contents of the same files have this fingerprint. */
  ghost predicate TellsApart(hash: Hash, a: seq<FileEntry>) {
    forall b :: Consistent(b) && Digested(hash, b) == Digested(hash, a) ==> b == a
  }

  ghost predicate Collisionless(hash: Hash) { forall s, t :: hash(s) == hash(t) ==> s == t }

  /** A fingerprint tells the contents of its files apart, when each is listed once, exactly
      when no file's path occurs as a line in one of two places: in the content of the file
      before it, except as its first line, or in its own content, except as its last line.
      Among all lists, such as give one path two contents, the condition is exact even for
      files listed several times. */
  lemma FingerprintTellsApartExactly(hash: Hash, a: seq<FileEntry>)
    requires OneLinePaths(a) && Collisionless(hash)
    ensures (forall b :: Digested(hash, b) == Digested(hash, a) ==> b == a) <==> !Movable(a)
    ensures !Movable(a) ==> TellsApart(hash, a)
    ensures Distinct(PathsOf(a)) && TellsApart(hash, a) ==> !Movable(a)
  {
    if Movable(a) {
      MovableCollides(hash, a);
    } else {
      forall b | Digested(hash, b) == Digested(hash, a) ensures b == a {
        SamePathsOneLine(a, b);
        LinesDetermine(a, b);
        if a != b { OtherCut(a, b); }
      }
    }
  }

  lemma MovableCollides(hash: Hash, a: seq<FileEntry>)
    requires OneLinePaths(a) && Movable(a)
    ensures exists b :: Digested(hash, b) == Digested(hash, a) && b != a && (Distinct(PathsOf(a)) ==> Consistent(b))
  {
    var b := MovedList(a);
    SamePathsOneLine(a, b);
    LinesDetermine(a, b);
    if Distinct(PathsOf(a)) { DistinctPathsConsistent(b); }
    assert Digested(hash, b) == Digested(hash, a);
  }

  lemma DistinctPathsConsistent(b: seq<FileEntry>)
    requires Distinct(PathsOf(b))
    ensures Consistent(b)
  {
    forall x, y | x in b && y in b && x.path == y.path ensures x == y {
      var i :| 0 <= i < |b| && b[i] == x;
      var j :| 0 <= j < |b| && b[j] == y;
      assert PathsOf(b)[i] == PathsOf(b)[j];
    }
  }

  /** A file listed twice is told apart from all its other contents, whatever it holds. */
  lemma ListedTwiceTellsApart(hash: Hash, e: FileEntry)
    requires '\n' !in e.path && Collisionless(hash)
    ensures TellsApart(hash, [e, e])
  {
    var a := [e, e];
    forall b | Consistent(b) && Digested(hash, b) == Digested(hash, a) ensures b == a {
      SamePathsOneLine(a, b);
      LinesDetermine(a, b);
      PathsTail(a, b);
      var f := b[0];
      assert PathsOf(b)[0] == PathsOf(a)[0] && PathsOf(b)[1] == PathsOf(a)[1];
      assert f in b && b[1] in b;
      assert b == [f, f];
      LinesPair(e, e);
      LinesPair(f, f);
      SameHalves([e.path], Split(e.data, '\n'), Split(f.data, '\n'));
      JoinSplit(e.data, '\n');
      JoinSplit(f.data, '\n');
    }
  }

  lemma SameHalves<T>(p: seq<T>, d: seq<T>, e: seq<T>)
    requires p + d + p + d == p + e + p + e
    ensures d == e
  {
    var x, y := p + d + p + d, p + e + p + e;
    assert |x| == 2 * (|p| + |d|) && |y| == 2 * (|p| + |e|);
    assert x[|p|..|p| + |d|] == d && y[|p|..|p| + |e|] == e;
  }

  lemma SamePathsOneLine(a: seq<FileEntry>, b: seq<FileEntry>)
    requires OneLinePaths(a) && PathsOf(b) == PathsOf(a)
    ensures OneLinePaths(b)
  {
    forall e | e in b ensures '\n' !in e.path {
      var i :| 0 <= i < |b| && b[i] == e;
      assert PathsOf(b)[i] == PathsOf(a)[i] && a[i] in a;
    }
  }

  /** Contents of a single line each are told apart from all others. */
  lemma SingleLinesTellApart(hash: Hash, a: seq<FileEntry>, b: seq<FileEntry>)
    requires OneLinePaths(a) && (forall e <- a :: '\n' !in e.data) && Collisionless(hash)
    requires Digested(hash, b) == Digested(hash, a)
    ensures a == b
  {
    forall i | 0 < i < |a| ensures !Moves(a[i - 1], a[i]) {
      assert a[i - 1] in a && a[i] in a;
      SplitPlain(a[i - 1].data, '\n');
      SplitPlain(a[i].data, '\n');
    }
    FingerprintTellsApartExactly(hash, a);
  }

  ghost predicate OneLine(entries: seq<FileEntry>) {
    forall e <- entries :: '\n' !in e.path && '\n' !in e.data
  }

  /** Among files of single lines even the paths can be read back from what is hashed. */
  lemma StreamInjective(a: seq<FileEntry>, b: seq<FileEntry>)
    requires OneLine(a) && OneLine(b) && Stream(a) == Stream(b)
    ensures a == b
  {
    LinesDetermine(a, b);
    LinesInjective(a, b);
  }

  lemma {:induction false} LinesInjective(a: seq<FileEntry>, b: seq<FileEntry>)
    requires OneLine(a) && OneLine(b) && Lines(a) == Lines(b)
    ensures a == b
  {
    if a != [] && b != [] {
      assert a[0] in a && b[0] in b;
      SplitPlain(a[0].data, '\n');
      SplitPlain(b[0].data, '\n');
      HeadsEqual(a[0].path, a[0].data, Lines(a[1..]), b[0].path, b[0].data, Lines(b[1..]));
      LinesInjective(a[1..], b[1..]);
      assert a == [a[0]] + a[1..] && b == [b[0]] + b[1..];
    }
  }

  lemma HeadsEqual(p: string, d: string, s: seq<string>, q: string, e: string, t: seq<string>)
    requires [p] + ([d] + s) == [q] + ([e] + t)
    ensures p == q && d == e && s == t
  {
    var x, y := [p] + ([d] + s), [q] + ([e] + t);
    assert x[0] == p && y[0] == q && x[1] == d && y[1] == e && x[2..] == s && y[2..] == t;
  }

  /** Of any two files: when the path of the second stands alone on a later line of the
      first, other contents of the two have the same fingerprint. */
  lemma LineFeedsCollide(hash: Hash, p: string, q: string, x: string, y: string, z: string)
    requires '\n' !in p && '\n' !in q && p != q && Collisionless(hash)
    ensures !TellsApart(hash, [FileEntry(p, x + ['\n'] + (q + ['\n'] + y)), FileEntry(q, z)])
  {
    var a := [FileEntry(p, x + ['\n'] + (q + ['\n'] + y)), FileEntry(q, z)];
    SplitConcat(x, '\n', q + ['\n'] + y);
    SplitConcat(q, '\n', y);
    SplitPlain(q, '\n');
    var d := Split(a[0].data, '\n');
    assert d == Split(x, '\n') + ([q] + Split(y, '\n'));
    assert d[|Split(x, '\n')|] == q && d[1..][|Split(x, '\n')| - 1] == q;
    assert Moves(a[1 - 1], a[1]);
    FingerprintTellsApartExactly(hash, a);
  }

  // ---------------------------------------------------------------------------
  // The key of a request

  datatype KeyInput = KeyInput(
    scope: string, buildID: string, jobIdentity: string, image: string, platform: string, paths: seq<string>, filesDigest: string)

  datatype KeyError = ScopeRequired | PathsRequired | JobIdentityRequired | BuildIDRequired

  /** The request with its texts trimmed and its paths as they stand. */
  function TrimmedInput(i: KeyInput): KeyInput {
    KeyInput(Trim(i.scope), Trim(i.buildID), Trim(i.jobIdentity), Trim(i.image), Trim(i.platform), i.paths, Trim(i.filesDigest))
  }

  const JOB := "job"
  const BUILD := "build"

  function Complaint(i: KeyInput): Option<KeyError> {
    if i.scope == "" then Some(ScopeRequired)
    else if i.paths == [] then Some(PathsRequired)
    else if i.scope == JOB && i.jobIdentity == "" then Some(JobIdentityRequired)
    else if i.scope == BUILD && i.buildID == "" then Some(BuildIDRequired)
    else None
  }

  /** The encoding of a request as text. */
  type Encoding = KeyInput -> string

  function KeyText(scope: string, digest: string): string { "v1/" + (scope + ("/" + digest)) }

  /** The key of a trimmed request. */
  function KeyOf(encode: Encoding, hash: Hash, i: KeyInput): Result<string, KeyError> {
    match Complaint(i)
    case Some(error) => Err(error)
    case None => Ok(KeyText(i.scope, hash(encode(i.(paths := Sort(i.paths, StringLe))))))
  }

  method SortStrings(s: seq<string>) returns (r: seq<string>)
    ensures multiset(r) == multiset(s) && Sorted(r, StringLe) && r == Sort(s, StringLe)
  {
    r := Sort(s, StringLe);
    SortPermutes(s, StringLe);
    StringOrder();
    SortSorted(s, StringLe);
  }

  method ResolveKey(encode: Encoding, hash: Hash, input: KeyInput) returns (r: Result<string, KeyError>)
    ensures r == KeyOf(encode, hash, TrimmedInput(input))
  {
    var trimmed := TrimmedInput(input);
    var complaint := Complaint(trimmed);
    if complaint.Some? { return Err(complaint.value); }
    var paths := SortStrings(trimmed.paths);
    return Ok(KeyText(trimmed.scope, hash(encode(trimmed.(paths := paths)))));
  }

  /** Two requests with the same texts and the same paths, in any order. */
  ghost predicate SameRequest(a: KeyInput, b: KeyInput) {
    a.(paths := []) == b.(paths := []) && multiset(a.paths) == multiset(b.paths)
  }

  /** Distinct values have distinct digests and no digest holds a slash. */
  ghost predicate Separating(encode: Encoding, hash: Hash) {
    && (forall a, b :: hash(encode(a)) == hash(encode(b)) ==> a == b)
    && (forall s :: '/' !in hash(s))
  }

  lemma SortedPathsAgree(a: seq<string>, b: seq<string>)
    ensures Sort(a, StringLe) == Sort(b, StringLe) <==> multiset(a) == multiset(b)
  {
    SortPermutes(a, StringLe);
    SortPermutes(b, StringLe);
    StringOrder();
    SortSorted(a, StringLe);
    SortSorted(b, StringLe);
    if multiset(a) == multiset(b) {
      forall x, y | StringLe(x, y) && StringLe(y, x) ensures x == y { StringLeAntisymmetric(x, y); }
      SortedUnique(Sort(a, StringLe), Sort(b, StringLe), StringLe);
    }
  }

  lemma DigestOfKey(s: string, d: string, t: string, e: string)
    requires '/' !in d && '/' !in e && KeyText(s, d) == KeyText(t, e)
    ensures d == e
  {
    KeyEnds(s, d);
    KeyEnds(t, e);
  }

  lemma KeyEnds(s: string, d: string)
    requires '/' !in d
    ensures Split(KeyText(s, d), '/')[|Split(KeyText(s, d), '/')| - 1] == d
  {
    ConcatAssoc("v1/" + s, "/", d);
    ConcatAssoc("v1/", s, "/" + d);
    SplitConcat("v1/" + s, '/', d);
    SplitPlain(d, '/');
  }

  /** Two complete requests, as they are once trimmed, share a key exactly when their texts
      agree and their paths are permutations of each other. */
  lemma KeysAgreeExactly(encode: Encoding, hash: Hash, a: KeyInput, b: KeyInput)
    requires Separating(encode, hash) && KeyOf(encode, hash, a).Ok? && KeyOf(encode, hash, b).Ok?
    ensures KeyOf(encode, hash, a) == KeyOf(encode, hash, b) <==> SameRequest(a, b)
  {
    var x, y := a.(paths := Sort(a.paths, StringLe)), b.(paths := Sort(b.paths, StringLe));
    SortedPathsAgree(a.paths, b.paths);
    if KeyOf(encode, hash, a) == KeyOf(encode, hash, b) {
      DigestOfKey(a.scope, hash(encode(x)), b.scope, hash(encode(y)));
      assert x == y;
    }
  }

  /** Permuting the paths of a request, complete or not, changes nothing. */
  lemma KeyOrderFree(encode: Encoding, hash: Hash, i: KeyInput, paths: seq<string>)
    requires multiset(i.paths) == multiset(paths)
    ensures KeyOf(encode, hash, i.(paths := paths)) == KeyOf(encode, hash, i)
  {
    SortedPathsAgree(i.paths, paths);
    PermutationMembers(i.paths, paths);
  }
}
