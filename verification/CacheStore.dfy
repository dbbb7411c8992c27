/** The cache archive store: one archive file per key below a root directory, with
    eviction by least recent use under a byte budget. */
module CacheStore {
  import opened Text
  import opened Paths
  import opened Archive
  import opened Sorting

  /** An archive file: its entries, its size in bytes and its modification time. */
  datatype Stored = Stored(content: seq<Entry>, size: nat, lastUse: int)

  /** The files below the root, by full path. */
  type Files = map<string, Stored>

  /** The store's settings. `digest` is the hexadecimal SHA-256 of a text. */
  datatype Config = Config(root: string, maxSizeBytes: int, digest: string -> string)

  datatype StoreError =
    | RootRequired | InvalidKey | DestinationRequired | SourceRequired | SourceMissing
    | ArchiveRequired | Unarchivable | ExtractFailed

  /** Why a save reports an error: it was refused, or the eviction after it failed. */
  datatype SaveError = Refused(error: StoreError) | EvictionFailed

  const DEFAULT_MAX_BYTES: int := 10 * 1024 * 1024 * 1024

  predicate HexDigit(c: char) { '0' <= c <= '9' || 'a' <= c <= 'f' }

  /** The digest writes hexadecimal text and never collides. */
  ghost predicate GoodConfig(cfg: Config) {
    && Trim(cfg.root) != ""
    && cfg.maxSizeBytes > 0
    && (forall s, i :: 0 <= i < |cfg.digest(s)| ==> HexDigit(cfg.digest(s)[i]))
    && (forall a, b :: cfg.digest(a) == cfg.digest(b) ==> a == b)
  }

  // ---------------------------------------------------------------------------
  // Keys

  function CanonicalKey(key: string): string { Clean(Trim(key)) }

  /** `resolvePathForKey` */
  function ResolvePath(cfg: Config, key: string): Result<string, StoreError> {
    if Trim(cfg.root) == "" then Err(RootRequired)
    else
      var trimmed := Trim(key);
      if trimmed == "" then Err(InvalidKey)
      else if '\\' in trimmed || HasPrefix(trimmed, "/") then Err(InvalidKey)
      else
        var cleaned := Clean(trimmed);
        if cleaned == "." || LooksUpward(cleaned) then Err(InvalidKey)
        else
          var full := JoinPath([cfg.root, cfg.digest(cleaned) + ".tar.gz"]);
          match Rel(Clean(cfg.root), full)
          case None => Err(InvalidKey)
          case Some(way) => if LooksUpward(way) then Err(InvalidKey) else Ok(full)
  }

  /** A key the store accepts: relative, without backslashes, naming something
      below the root it starts from. */
  ghost predicate ValidKey(key: string) {
    var p := Parse(Trim(key));
    '\\' !in Trim(key) && !p.rooted && p.segs != [] && !Climbs(p)
  }

  function ArchivePath(cfg: Config, canonical: string): Path {
    Under(Parse(cfg.root), [cfg.digest(canonical) + ".tar.gz"])
  }

  lemma DigestName(cfg: Config, canonical: string)
    requires GoodConfig(cfg)
    ensures Name(cfg.digest(canonical) + ".tar.gz")
  {
    var d := cfg.digest(canonical);
    var name := d + ".tar.gz";
    assert |name| == |d| + 7;
    forall i | 0 <= i < |name| ensures name[i] != '/' {
      if i < |d| { assert HexDigit(d[i]); } else { assert name[i] == ".tar.gz"[i - |d|]; }
    }
  }

  /** The archive file of a canonical key lies directly below the root, and the
      check on the joined path lets it through. */
  lemma ArchiveBelowRoot(cfg: Config, canonical: string)
    requires GoodConfig(cfg)
    ensures var full := JoinPath([cfg.root, cfg.digest(canonical) + ".tar.gz"]);
            && full == Render(ArchivePath(cfg, canonical))
            && Rel(Clean(cfg.root), full).Some? && !LooksUpward(Rel(Clean(cfg.root), full).value)
    ensures Normal(ArchivePath(cfg, canonical))
  {
    var name := cfg.digest(canonical) + ".tar.gz";
    DigestName(cfg, canonical);
    ParseName(name);
    JoinBelow(cfg.root, name);
    ParseNormal(cfg.root);
    RelBelow(Parse(cfg.root), [name]);
    NamesDoNotClimb([name]);
  }

  /** The textual tests on a key say that it is valid. */
  lemma KeyTests(key: string)
    ensures var trimmed := Trim(key);
            ValidKey(key) <==>
              && trimmed != "" && '\\' !in trimmed && !HasPrefix(trimmed, "/")
              && Clean(trimmed) != "." && !LooksUpward(Clean(trimmed))
  {
    var trimmed := Trim(key);
    var p := Parse(trimmed);
    ParseNormal(trimmed);
    DotIsEmpty(p);
    LooksUpwardMeaning(p);
    SplitPlain("", '/');
    assert trimmed != "" ==> trimmed[..1] == [trimmed[0]];
  }

  /** A key resolves exactly when it is valid, to the file named by the digest of
      its canonical form; the check on the joined path rejects nothing. */
  lemma ResolveExactly(cfg: Config, key: string)
    requires GoodConfig(cfg)
    ensures ResolvePath(cfg, key).Ok? <==> ValidKey(key)
    ensures ValidKey(key) ==> ResolvePath(cfg, key).value == Render(ArchivePath(cfg, CanonicalKey(key)))
    ensures Normal(ArchivePath(cfg, CanonicalKey(key)))
  {
    KeyTests(key);
    ArchiveBelowRoot(cfg, CanonicalKey(key));
  }

  /** Two accepted keys share an archive file exactly when they clean to the same key. */
  lemma SameArchive(cfg: Config, a: string, b: string)
    requires GoodConfig(cfg) && ValidKey(a) && ValidKey(b)
    ensures ResolvePath(cfg, a) == ResolvePath(cfg, b) <==> CanonicalKey(a) == CanonicalKey(b)
  {
    ResolveExactly(cfg, a);
    ResolveExactly(cfg, b);
    var x, y := ArchivePath(cfg, CanonicalKey(a)), ArchivePath(cfg, CanonicalKey(b));
    RenderParse(x);
    RenderParse(y);
    if x == y {
      var m, n := cfg.digest(CanonicalKey(a)), cfg.digest(CanonicalKey(b));
      assert x.segs[|x.segs| - 1] == m + ".tar.gz" && y.segs[|y.segs| - 1] == n + ".tar.gz";
      assert |m + ".tar.gz"| == |n + ".tar.gz"|;
      assert m == (m + ".tar.gz")[..|m|] == n;
    }
  }

  // ---------------------------------------------------------------------------
  // Eviction

  datatype CacheEntry = CacheEntry(path: string, size: nat, lastUse: int)

  predicate IsArchive(path: string) { HasSuffix(ToLower(path), ".tar.gz") }

  function EntryOf(files: Files, path: string): CacheEntry
    requires path in files
  {
    CacheEntry(path, files[path].size, files[path].lastUse)
  }

  /** The list names every archive file once, as it is on disk. */
  ghost predicate Lists(files: Files, entries: seq<CacheEntry>) {
    && Distinct(entries)
    && (forall e <- entries :: e.path in files && IsArchive(e.path) && e == EntryOf(files, e.path))
    && (forall p <- files :: IsArchive(p) ==> EntryOf(files, p) in entries)
  }

  function Total(entries: seq<CacheEntry>): nat {
    if entries == [] then 0 else entries[0].size + Total(entries[1..])
  }

  predicate UsedNoLater(a: CacheEntry, b: CacheEntry) { a.lastUse <= b.lastUse }

  function PathsOf(entries: seq<CacheEntry>): set<string> {
    set e | e in entries :: e.path
  }

  /** `after` is `before` without the first `n` archives of the use order `order`,
      and no shorter prefix would have fitted the budget. */
  ghost predicate EvictsFirst(before: Files, after: Files, budget: int, order: seq<CacheEntry>, n: nat) {
    && Lists(before, order) && Sorted(order, UsedNoLater) && n <= |order|
    && after == before - PathsOf(order[..n])
    && ShortestPrefix(order, n, budget)
  }

  /** Dropping the first `n` entries fits the budget and dropping fewer does not. */
  ghost predicate ShortestPrefix(order: seq<CacheEntry>, n: nat, budget: int) {
    && n <= |order| && Total(order[n..]) <= budget
    && forall m :: 0 <= m < n ==> Total(order[m..]) > budget
  }

  ghost predicate Evicts(before: Files, after: Files, budget: int) {
    exists order, n :: EvictsFirst(before, after, budget, order, n)
  }

  lemma {:induction false} TotalSplit(a: seq<CacheEntry>, b: seq<CacheEntry>)
    ensures Total(a + b) == Total(a) + Total(b)
  {
    if a == [] {
      assert a + b == b;
    } else {
      assert (a + b)[1..] == a[1..] + b;
      TotalSplit(a[1..], b);
    }
  }

  lemma TotalWithout(left: seq<CacheEntry>, e: CacheEntry, right: seq<CacheEntry>)
    ensures Total(left + [e] + right) == e.size + Total(left + right)
  {
    TotalSplit(left + [e], right);
    TotalSplit(left, [e]);
    TotalSplit(left, right);
    assert [e][1..] == [];
  }

  /** The total does not depend on the order of the list. */
  lemma {:induction false} TotalPermuted(a: seq<CacheEntry>, b: seq<CacheEntry>)
    requires multiset(a) == multiset(b)
    ensures Total(a) == Total(b)
    decreases |a|
  {
    PermutationMembers(a, b);
    if a != [] {
      assert a[0] in b;
      var i :| 0 <= i < |b| && b[i] == a[0];
      var left, right := b[..i], b[i + 1..];
      TotalWithout(left, b[i], right);
      WithoutMultiset(b, i);
      TailMultiset(a);
      TotalPermuted(a[1..], left + right);
    }
  }

  lemma ListsAgree(files: Files, a: seq<CacheEntry>, b: seq<CacheEntry>)
    requires Lists(files, a) && Lists(files, b)
    ensures Total(a) == Total(b)
  {
    forall e ensures e in a <==> e in b {}
    DistinctPermutation(a, b);
    TotalPermuted(a, b);
  }

  lemma UseOrderTotal()
    ensures TotalPreorder(UsedNoLater)
  {
  }

  lemma PathsOfLonger(order: seq<CacheEntry>, n: nat)
    requires n < |order|
    ensures PathsOf(order[..n + 1]) == PathsOf(order[..n]) + {order[n].path}
  {
    assert order[..n + 1] == order[..n] + [order[n]];
  }

  lemma RemovedOne(files: Files, order: seq<CacheEntry>, n: nat)
    requires n < |order|
    ensures files - PathsOf(order[..n]) - {order[n].path} == files - PathsOf(order[..n + 1])
  {
    PathsOfLonger(order, n);
  }

  lemma TotalFrom(order: seq<CacheEntry>, n: nat)
    requires n < |order|
    ensures Total(order[n..]) == order[n].size + Total(order[n + 1..])
  {
    assert order[n..][1..] == order[n + 1..];
  }

  /** Any listing, sorted by use, is still a listing with the same total. */
  lemma SortedListing(files: Files, entries: seq<CacheEntry>)
    requires Lists(files, entries)
    ensures Lists(files, Sort(entries, UsedNoLater))
    ensures Sorted(Sort(entries, UsedNoLater), UsedNoLater)
    ensures Total(Sort(entries, UsedNoLater)) == Total(entries)
  {
    var order := Sort(entries, UsedNoLater);
    UseOrderTotal();
    SortSorted(entries, UsedNoLater);
    SortPermutes(entries, UsedNoLater);
    PermutationMembers(order, entries);
    TotalPermuted(order, entries);
    DistinctPermuted(entries, order);
  }

  // ---------------------------------------------------------------------------
  // What eviction guarantees

  /** An entry of the removed prefix and one of the rest name different files. */
  lemma SplitApart(files: Files, order: seq<CacheEntry>, n: nat, d: CacheEntry, e: CacheEntry)
    requires Lists(files, order) && n <= |order| && d in order[..n] && e in order[n..]
    ensures d.path != e.path && d in order && e in order
  {
    var i :| 0 <= i < n && order[i] == d;
    var j :| n <= j < |order| && order[j] == e;
    assert order[i] != order[j];
  }

  /** What is kept after an eviction is listed by the rest of the use order. */
  lemma KeptListing(before: Files, after: Files, budget: int, order: seq<CacheEntry>, n: nat)
    requires EvictsFirst(before, after, budget, order, n)
    ensures Lists(after, order[n..])
  {
    var kept := order[n..];
    forall i, j | 0 <= i < j < |kept| ensures kept[i] != kept[j] {
      assert order[n + i] != order[n + j];
    }
    forall e: CacheEntry | e in kept ensures e in order && e.path !in PathsOf(order[..n]) {
      forall d | d in order[..n] ensures d.path != e.path { SplitApart(before, order, n, d, e); }
    }
    forall p | p in after && IsArchive(p) ensures EntryOf(after, p) in kept {
      var e := EntryOf(before, p);
      assert e in order;
      assert order == order[..n] + kept;
      assert forall d <- order[..n] :: d.path in PathsOf(order[..n]);
    }
  }

  /** After eviction the archives fit the budget, however they are counted, and
      nothing but archives was removed and nothing kept was changed. */
  lemma EvictionFits(before: Files, after: Files, budget: int, entries: seq<CacheEntry>)
    requires Evicts(before, after, budget) && Lists(after, entries)
    ensures Total(entries) <= budget
    ensures forall p <- after :: p in before && after[p] == before[p]
    ensures forall p <- before :: p !in after ==> IsArchive(p)
  {
    var order: seq<CacheEntry>, n: nat :| EvictsFirst(before, after, budget, order, n);
    KeptListing(before, after, budget, order, n);
    ListsAgree(after, entries, order[n..]);
    forall p | p in before && p !in after ensures IsArchive(p) {
      var e: CacheEntry :| e in order[..n] && e.path == p;
      assert e in order;
    }
  }

  /** Every removed archive was last used no later than every kept one. */
  lemma EvictionOldestFirst(before: Files, after: Files, budget: int, removed: string, kept: string)
    requires Evicts(before, after, budget)
    requires removed in before && removed !in after
    requires kept in after && IsArchive(kept) && kept in before
    ensures before[removed].lastUse <= before[kept].lastUse
  {
    var order: seq<CacheEntry>, n: nat :| EvictsFirst(before, after, budget, order, n);
    KeptListing(before, after, budget, order, n);
    var d: CacheEntry :| d in order[..n] && d.path == removed;
    var i :| 0 <= i < n && order[i] == d;
    assert EntryOf(after, kept) in order[n..];
    var j :| n <= j < |order| && order[j] == EntryOf(after, kept);
    assert UsedNoLater(order[i], order[j]);
    assert d in order;
  }

  /** A store loses nothing exactly when it fits its budget already. */
  lemma EvictionIdle(before: Files, after: Files, budget: int, entries: seq<CacheEntry>)
    requires Evicts(before, after, budget) && Lists(before, entries)
    ensures after == before <==> Total(entries) <= budget
  {
    if after == before {
      EvictionFits(before, after, budget, entries);
    } else if Total(entries) <= budget {
      FitsAlready(before, after, budget, entries);
    }
  }

  lemma FitsAlready(before: Files, after: Files, budget: int, entries: seq<CacheEntry>)
    requires Evicts(before, after, budget) && Lists(before, entries) && Total(entries) <= budget
    ensures after == before
  {
    var order: seq<CacheEntry>, n: nat :| EvictsFirst(before, after, budget, order, n);
    ListsAgree(before, entries, order);
    if n > 0 {
      assert order[0..] == order;
    } else {
      assert PathsOf(order[..0]) == {};
    }
  }

  /** Where a use order reaches a time. */
  function FirstSince(order: seq<CacheEntry>, since: int): (k: nat)
    ensures k <= |order|
    ensures forall i :: 0 <= i < k ==> order[i].lastUse < since
    ensures k < |order| ==> order[k].lastUse >= since
  {
    if order == [] || order[0].lastUse >= since then 0 else 1 + FirstSince(order[1..], since)
  }

  /** The list names every archive used at a time or later once, as it is on disk. */
  ghost predicate ListsSince(files: Files, since: int, recent: seq<CacheEntry>) {
    && Distinct(recent)
    && forall e :: e in recent <==> e.path in files && IsArchive(e.path) && e == EntryOf(files, e.path) && e.lastUse >= since
  }

  lemma RecentSuffix(files: Files, order: seq<CacheEntry>, since: int, recent: seq<CacheEntry>)
    requires Lists(files, order) && Sorted(order, UsedNoLater) && ListsSince(files, since, recent)
    ensures Total(recent) == Total(order[FirstSince(order, since)..])
    ensures forall e :: e in recent <==> e in order[FirstSince(order, since)..]
  {
    var rest := order[FirstSince(order, since)..];
    forall e ensures e in recent <==> e in rest { RecentMember(files, order, since, recent, e); }
    DistinctRest(order, FirstSince(order, since));
    DistinctPermutation(recent, rest);
    TotalPermuted(recent, rest);
  }

  lemma DistinctRest<T>(s: seq<T>, k: nat)
    requires Distinct(s) && k <= |s|
    ensures Distinct(s[k..])
  {
    forall i, j | 0 <= i < j < |s| - k ensures s[k..][i] != s[k..][j] { assert s[k + i] != s[k + j]; }
  }

  lemma RecentMember(files: Files, order: seq<CacheEntry>, since: int, recent: seq<CacheEntry>, e: CacheEntry)
    requires Lists(files, order) && Sorted(order, UsedNoLater) && ListsSince(files, since, recent)
    ensures e in recent <==> e in order[FirstSince(order, since)..]
  {
    if e in recent {
      assert EntryOf(files, e.path) in order;
      SinceReached(order, since, e);
    }
    if e in order[FirstSince(order, since)..] { UsedSince(order, since, e); }
  }

  lemma SinceReached(order: seq<CacheEntry>, since: int, e: CacheEntry)
    requires e in order && e.lastUse >= since
    ensures e in order[FirstSince(order, since)..]
  {
    var k := FirstSince(order, since);
    var i :| 0 <= i < |order| && order[i] == e;
    assert order[k..][i - k] == e;
  }

  lemma UsedSince(order: seq<CacheEntry>, since: int, e: CacheEntry)
    requires Sorted(order, UsedNoLater) && e in order[FirstSince(order, since)..]
    ensures e in order && e.lastUse >= since
  {
    var k := FirstSince(order, since);
    var i :| k <= i < |order| && order[i] == e;
    assert i == k || UsedNoLater(order[k], order[i]);
  }

  lemma SuffixTotals(order: seq<CacheEntry>, n: nat, k: nat)
    requires n <= k <= |order|
    ensures Total(order[k..]) <= Total(order[n..])
  {
    assert order[n..] == order[n..k] + order[k..];
    TotalSplit(order[n..k], order[k..]);
  }

  /** The archives used at some time or later, ties included, all survive exactly when
      together they fit the budget. */
  lemma RecentSurvive(before: Files, after: Files, budget: int, since: int, recent: seq<CacheEntry>)
    requires Evicts(before, after, budget) && ListsSince(before, since, recent)
    ensures (forall e <- recent :: e.path in after) <==> Total(recent) <= budget
  {
    var order: seq<CacheEntry>, n: nat :| EvictsFirst(before, after, budget, order, n);
    var k := FirstSince(order, since);
    RecentSuffix(before, order, since, recent);
    KeptListing(before, after, budget, order, n);
    if n <= k {
      SuffixTotals(order, n, k);
      forall e | e in recent ensures e.path in after {
        var i :| k <= i < |order| && order[i] == e;
        assert order[n..][i - n] == e;
      }
    } else {
      assert Total(order[k..]) > budget;
      assert order[k] in order[k..] && order[k] in order[..n];
      assert order[k].path in PathsOf(order[..n]);
    }
  }

  /** So the one archive used last survives exactly when it fits the budget on its own. */
  lemma NewestSurvives(before: Files, after: Files, budget: int, path: string)
    requires Evicts(before, after, budget)
    requires path in before && IsArchive(path)
    requires forall p <- before :: p != path && IsArchive(p) ==> before[p].lastUse < before[path].lastUse
    ensures path in after <==> before[path].size <= budget
  {
    var e := EntryOf(before, path);
    assert ListsSince(before, e.lastUse, [e]);
    RecentSurvive(before, after, budget, e.lastUse, [e]);
    assert Total([e]) == e.size by { assert [e][1..] == []; }
    assert e in [e];
  }

  // ---------------------------------------------------------------------------
  // The store as the operations see it

  /** Where the operations find the file of a key, when two keys are the same key,
      and the byte budget. */
  datatype Layout = Layout(locate: string -> Result<string, StoreError>, canonical: string -> string, budget: int)

  function LayoutOf(cfg: Config): Layout {
    Layout(key => ResolvePath(cfg, key), key => CanonicalKey(key), cfg.maxSizeBytes)
  }

  /** Two located keys share a file exactly when they are the same key. */
  ghost predicate GoodLayout(l: Layout) {
    && l.budget > 0
    && forall a, b :: l.locate(a).Ok? && l.locate(b).Ok? ==>
         (l.locate(a) == l.locate(b) <==> l.canonical(a) == l.canonical(b))
  }

  /** The store's own layout keeps different keys apart. */
  lemma StoreLayoutGood(cfg: Config)
    requires GoodConfig(cfg)
    ensures GoodLayout(LayoutOf(cfg))
  {
    var l := LayoutOf(cfg);
    forall a, b | l.locate(a).Ok? && l.locate(b).Ok?
      ensures l.locate(a) == l.locate(b) <==> l.canonical(a) == l.canonical(b)
    {
      ResolveExactly(cfg, a);
      ResolveExactly(cfg, b);
      SameArchive(cfg, a, b);
    }
  }

  // ---------------------------------------------------------------------------
  // Operations and runs

  /** What the operations on the store are asked to do; times and archive sizes are
      supplied by the outside. */
  datatype Op =
    | SaveOp(key: string, content: seq<Entry>, size: nat, now: int)
    | PromoteOp(source: string, destination: string)
    | DeleteOp(key: string)
    | RestoreOp(key: string, now: int)

  /** How an operation ends: done, done except that the eviction after it got stuck on a
      file it could not remove, or refused without any change. */
  datatype Outcome = Done | Unevicted | Failed

  datatype Event = Event(op: Op, outcome: Outcome)

  /** What an operation does to the files, once its keys are resolved. */
  datatype Change =
    | Write(path: string, stored: Stored)
    | Move(from: string, to: string)
    | Remove(path: string)
    | Touch(path: string, now: int)

  function ChangeOf(l: Layout, op: Op): Option<Change> {
    match op
    case SaveOp(key, content, size, now) =>
      var p := l.locate(key);
      if p.Ok? then Some(Write(p.value, Stored(content, size, now))) else None
    case PromoteOp(source, destination) =>
      var s, d := l.locate(source), l.locate(destination);
      if s.Ok? && d.Ok? then Some(Move(s.value, d.value)) else None
    case DeleteOp(key) =>
      var p := l.locate(key);
      if p.Ok? then Some(Remove(p.value)) else None
    case RestoreOp(key, now) =>
      var p := l.locate(key);
      if p.Ok? then Some(Touch(p.value, now)) else None
  }

  /** An eviction that stops at a file it cannot remove: the older archives are gone, and
      what is left does not fit the budget yet. */
  ghost predicate GetsStuck(budget: int, before: Files, after: Files) {
    exists order, n :: StuckAt(budget, before, after, order, n)
  }

  ghost predicate StuckAt(budget: int, before: Files, after: Files, order: seq<CacheEntry>, n: nat) {
    && Lists(before, order) && Sorted(order, UsedNoLater) && n < |order|
    && after == before - PathsOf(order[..n])
    && forall m :: 0 <= m <= n ==> Total(order[m..]) > budget
  }

  ghost predicate Settles(budget: int, before: Files, after: Files, done: bool) {
    if budget <= 0 then done && after == before
    else if done then Evicts(before, after, budget)
    else GetsStuck(budget, before, after)
  }

  /** A rename keeps the modification time; a restore that hits sets it. Saving and
      promoting are followed by eviction. */
  ghost predicate Applies(budget: int, before: Files, change: Change, after: Files, done: bool) {
    match change
    case Write(path, stored) => Settles(budget, before[path := stored], after, done)
    case Move(from, to) => from in before && Settles(budget, (before - {from})[to := before[from]], after, done)
    case Remove(path) => done && after == before - {path}
    case Touch(path, now) =>
      done && after == if path in before then before[path := before[path].(lastUse := now)] else before
  }

  /** One operation, successful or not. */
  ghost predicate Step(l: Layout, before: Files, event: Event, after: Files) {
    if event.outcome.Failed? then after == before
    else
      var change := ChangeOf(l, event.op);
      change.Some? && Applies(l.budget, before, change.value, after, event.outcome.Done?)
  }

  /** What archiving a source writes. */
  function ContentOf(source: Tree): seq<Entry> { if source.Dir? then ChildEntries([], source.children) else [] }

  predicate Archivable(source: Option<Tree>) {
    source.Some? && !source.value.Symlink? && (source.value.Dir? ==> Storable(source.value))
  }

  /** The destination is made and the archive replayed below it, without failure. */
  ghost predicate Extracts(before: Fs, root: string, content: seq<Entry>, after: Fs) {
    var made := MakeDirs(before, Parse(root));
    made.1 && ExtractAll(made.0, root, content) == (after, true)
  }

  class FilesystemStore {
    const layout: Layout
    var files: Files

    constructor (root: string, maxSizeBytes: int, digest: string -> string)
      ensures layout == LayoutOf(Config(Trim(root), if maxSizeBytes <= 0 then DEFAULT_MAX_BYTES else maxSizeBytes, digest))
      ensures files == map[]
    {
      layout := LayoutOf(Config(Trim(root), if maxSizeBytes <= 0 then DEFAULT_MAX_BYTES else maxSizeBytes, digest));
      files := map[];
    }

    /** The walk over the root directory, in whatever order it is read. */
    method CollectEntries() returns (entries: seq<CacheEntry>)
      ensures Lists(files, entries)
    {
      entries := [];
      var todo := files.Keys;
      while todo != {}
        invariant todo <= files.Keys
        invariant Distinct(entries)
        invariant forall e <- entries :: e.path in files && e.path !in todo && IsArchive(e.path) && e == EntryOf(files, e.path)
        invariant forall p <- files :: p !in todo && IsArchive(p) ==> EntryOf(files, p) in entries
        decreases |todo|
      {
        var p :| p in todo;
        todo := todo - {p};
        if IsArchive(p) {
          entries := entries + [CacheEntry(p, files[p].size, files[p].lastUse)];
        }
      }
    }

    method TotalSizeBytes() returns (total: nat)
      ensures forall entries :: Lists(files, entries) ==> total == Total(entries)
    {
      var entries := CollectEntries();
      total := SumSizes(entries);
      forall other | Lists(files, other) ensures total == Total(other) {
        ListsAgree(files, entries, other);
      }
    }

    static method SumSizes(entries: seq<CacheEntry>) returns (total: nat)
      ensures total == Total(entries)
    {
      total := 0;
      var i := 0;
      while i < |entries|
        invariant 0 <= i <= |entries|
        invariant total + Total(entries[i..]) == Total(entries)
      {
        assert entries[i..][1..] == entries[i + 1..];
        total := total + entries[i].size;
        i := i + 1;
      }
    }

    /** `evictIfNeeded`, where the files in `stuck` cannot be removed. */
    method EvictIfNeeded(stuck: set<string>) returns (done: bool)
      modifies this`files
      ensures Settles(layout.budget, old(files), files, done)
      ensures stuck == {} ==> done
    {
      if layout.budget <= 0 { return true; }
      var entries := CollectEntries();
      var total := SumSizes(entries);
      SortedListing(files, entries);
      var order := Sort(entries, UsedNoLater);
      assert order[0..] == order && PathsOf(order[..0]) == {};
      if total <= layout.budget {
        assert EvictsFirst(files, files, layout.budget, order, 0);
        return true;
      }
      var n;
      n, done := RemoveOldest(order, total, stuck);
      if done {
        assert EvictsFirst(old(files), files, layout.budget, order, n);
      } else {
        assert StuckAt(layout.budget, old(files), files, order, n);
      }
    }

    /** The removal loop of `evictIfNeeded`. */
    method RemoveOldest(order: seq<CacheEntry>, size: nat, stuck: set<string>) returns (n: nat, done: bool)
      requires size == Total(order) && layout.budget > 0
      modifies this`files
      ensures n <= |order| && files == old(files) - PathsOf(order[..n])
      ensures done ==> ShortestPrefix(order, n, layout.budget)
      ensures !done ==> n < |order| && order[n].path in stuck && forall m :: 0 <= m <= n ==> Total(order[m..]) > layout.budget
    {
      var total := size;
      n := 0;
      assert order[0..] == order && PathsOf(order[..0]) == {};
      while n < |order| && total > layout.budget
        invariant 0 <= n <= |order|
        invariant total == Total(order[n..])
        invariant files == old(files) - PathsOf(order[..n])
        invariant forall m :: 0 <= m < n ==> Total(order[m..]) > layout.budget
      {
        if order[n].path in stuck { return n, false; }
        RemovedOne(old(files), order, n);
        TotalFrom(order, n);
        files := files - {order[n].path};
        total := total - order[n].size;
        n := n + 1;
      }
      done := true;
    }

    /** `Save`: archive a directory tree under a key. A missing source is `None`. When
        the eviction fails the call reports an error although the archive is stored. */
    method Save(key: string, sourceRoot: string, source: Option<Tree>, size: nat, now: int, stuck: set<string>)
      returns (r: Result<seq<Entry>, SaveError>)
      modifies this`files
      ensures r.Ok? || r == Err(EvictionFailed) <==>
              layout.locate(key).Ok? && Trim(sourceRoot) != "" && Archivable(source)
      ensures r.Ok? ==>
                && r.value == ContentOf(source.value)
                && Step(layout, old(files), Event(SaveOp(key, ContentOf(source.value), size, now), Done), files)
      ensures r == Err(EvictionFailed) ==>
                stuck != {} && Step(layout, old(files), Event(SaveOp(key, ContentOf(source.value), size, now), Unevicted), files)
      ensures r.Err? && r.error.Refused? ==> files == old(files)
    {
      var path := layout.locate(key);
      if path.Err? { return Err(Refused(path.error)); }
      if Trim(sourceRoot) == "" { return Err(Refused(SourceRequired)); }
      if source.None? { return Err(Refused(SourceMissing)); }
      var written := WriteTarGz(source.value);
      if written.Err? { return Err(Refused(Unarchivable)); }
      files := files[path.value := Stored(written.value, size, now)];
      var done := EvictIfNeeded(stuck);
      return if done then Ok(written.value) else Err(EvictionFailed);
    }

    /** `SaveArchive`: store a ready-made archive. */
    method SaveArchive(key: string, archive: Option<seq<Entry>>, size: nat, now: int, stuck: set<string>)
      returns (r: Result<nat, SaveError>)
      modifies this`files
      ensures r.Ok? || r == Err(EvictionFailed) <==> archive.Some? && layout.locate(key).Ok?
      ensures r.Ok? ==> r.value == size && Step(layout, old(files), Event(SaveOp(key, archive.value, size, now), Done), files)
      ensures r == Err(EvictionFailed) ==>
                stuck != {} && Step(layout, old(files), Event(SaveOp(key, archive.value, size, now), Unevicted), files)
      ensures r.Err? && r.error.Refused? ==> files == old(files)
    {
      if archive.None? { return Err(Refused(ArchiveRequired)); }
      var path := layout.locate(key);
      if path.Err? { return Err(Refused(path.error)); }
      files := files[path.value := Stored(archive.value, size, now)];
      var done := EvictIfNeeded(stuck);
      return if done then Ok(size) else Err(EvictionFailed);
    }

    /** `PromoteArchive`: move an archive to another key, keeping its use time. */
    method PromoteArchive(source: string, destination: string, stuck: set<string>) returns (outcome: Outcome)
      modifies this`files
      ensures Step(layout, old(files), Event(PromoteOp(source, destination), outcome), files)
      ensures !outcome.Failed? <==> && layout.locate(source).Ok? && layout.locate(destination).Ok?
                                    && layout.locate(source).value in old(files)
      ensures outcome.Unevicted? ==> stuck != {}
    {
      var s := layout.locate(source);
      if s.Err? { return Failed; }
      var d := layout.locate(destination);
      if d.Err? { return Failed; }
      if s.value !in files { return Failed; }
      var moved := files[s.value];
      files := (files - {s.value})[d.value := moved];
      var done := EvictIfNeeded(stuck);
      return if done then Done else Unevicted;
    }

    /** `DeleteArchive`: deleting a missing archive succeeds. */
    method DeleteArchive(key: string) returns (ok: bool)
      modifies this`files
      ensures Step(layout, old(files), Event(DeleteOp(key), if ok then Done else Failed), files)
      ensures ok <==> layout.locate(key).Ok?
    {
      var path := layout.locate(key);
      if path.Err? { return false; }
      files := files - {path.value};
      return true;
    }

    /** The part of `Restore` after the key is resolved. */
    method RestoreAt(path: string, root: string, disk: Disk, now: int) returns (r: Result<bool, StoreError>)
      modifies this`files, disk
      ensures r.Ok? ==> (r.value <==> path in old(files))
      ensures r == Ok(true) ==>
                && files == old(files)[path := old(files)[path].(lastUse := now)]
                && Extracts(old(disk.fs), root, old(files)[path].content, disk.fs)
      ensures r != Ok(true) ==> files == old(files)
      ensures r == Ok(false) ==> disk.fs == old(disk.fs)
    {
      if path !in files { return Ok(false); }
      var ok := disk.MkdirAll(Parse(root));
      if !ok { return Err(ExtractFailed); }
      ok := disk.ExtractTarGz(root, files[path].content);
      if !ok { return Err(ExtractFailed); }
      files := files[path := files[path].(lastUse := now)];
      return Ok(true);
    }

    /** `Restore`: extract the archive of a key below a destination and count the use. */
    method Restore(key: string, destinationRoot: string, disk: Disk, now: int) returns (r: Result<bool, StoreError>)
      modifies this`files, disk
      ensures Step(layout, old(files), Event(RestoreOp(key, now), if r.Ok? then Done else Failed), files)
      ensures r.Ok? ==> layout.locate(key).Ok? && (r.value <==> layout.locate(key).value in old(files))
      ensures r == Ok(false) ==> disk.fs == old(disk.fs)
      ensures r == Ok(true) ==>
                Extracts(old(disk.fs), destinationRoot, old(files)[layout.locate(key).value].content, disk.fs)
    {
      var path := layout.locate(key);
      if path.Err? { return Err(path.error); }
      if Trim(destinationRoot) == "" { return Err(DestinationRequired); }
      r := RestoreAt(path.value, destinationRoot, disk, now);
    }
  }

  // ---------------------------------------------------------------------------
  // The store refines "last saved or miss"

  /** What an operation that was not refused means for canonical keys. */
  datatype Effect =
    | Put(key: string, content: seq<Entry>)
    | Rename(from: string, to: string)
    | Drop(key: string)
    | NoEffect

  function EffectOf(l: Layout, event: Event): Effect {
    if event.outcome.Failed? then NoEffect
    else
      match event.op
      case SaveOp(key, content, _, _) => Put(l.canonical(key), content)
      case PromoteOp(source, destination) => Rename(l.canonical(source), l.canonical(destination))
      case DeleteOp(key) => Drop(l.canonical(key))
      case RestoreOp(_, _) => NoEffect
  }

  function Effects(l: Layout, trace: seq<Event>): seq<Effect> {
    seq(|trace|, i requires 0 <= i < |trace| => EffectOf(l, trace[i]))
  }

  /** What a run says is under a canonical key: the content last saved there, or
      moved there, and not deleted, moved away or overwritten since. */
  function Expected(effects: seq<Effect>, k: string): Option<seq<Entry>> {
    if effects == [] then None
    else
      var last, rest := effects[|effects| - 1], effects[..|effects| - 1];
      match last
      case Put(key, content) => if key == k then Some(content) else Expected(rest, k)
      case Rename(from, to) =>
        if to == k then Expected(rest, from) else if from == k then None else Expected(rest, k)
      case Drop(key) => if key == k then None else Expected(rest, k)
      case NoEffect => Expected(rest, k)
  }

  /** If the file is there, it is what the run says is under the key. */
  ghost predicate Holds(effects: seq<Effect>, files: Files, path: string, k: string) {
    path in files ==> Expected(effects, k) == Some(files[path].content)
  }

  /** A change and an effect speak of the same entries, as far as `path` and `k` go. */
  ghost predicate Matches(change: Change, effect: Effect, path: string, k: string) {
    match change
    case Write(p, stored) => effect.Put? && (p == path <==> effect.key == k) && effect.content == stored.content
    case Move(from, to) => effect.Rename? && (from == path <==> effect.from == k) && (to == path <==> effect.to == k)
    case Remove(p) => effect.Drop? && (p == path <==> effect.key == k)
    case Touch(_, _) => effect.NoEffect?
  }

  lemma SettlesShrinks(budget: int, before: Files, after: Files, done: bool)
    requires Settles(budget, before, after, done)
    ensures forall p <- after :: p in before && after[p] == before[p]
  {
    if budget > 0 && done {
      var order: seq<CacheEntry>, n: nat :| EvictsFirst(before, after, budget, order, n);
    } else if budget > 0 {
      var order: seq<CacheEntry>, n: nat :| StuckAt(budget, before, after, order, n);
    }
  }

  /** One change keeps what a file holds in line with the run. */
  lemma ChangeHolds(budget: int, effects: seq<Effect>, before: Files, change: Change, effect: Effect, after: Files,
                    path: string, k: string, done: bool)
    requires Applies(budget, before, change, after, done) && Matches(change, effect, path, k)
    requires Holds(effects, before, path, k)
    requires change.Move? && effect.Rename? ==> Holds(effects, before, change.from, effect.from)
    ensures Holds(effects + [effect], after, path, k)
  {
    assert (effects + [effect])[..|effects|] == effects;
    match change
    case Write(p, stored) => SettlesShrinks(budget, before[p := stored], after, done);
    case Move(from, to) => SettlesShrinks(budget, (before - {from})[to := before[from]], after, done);
    case Remove(_) =>
    case Touch(_, _) =>
  }

  lemma OperationMatches(l: Layout, op: Op, outcome: Outcome, key: string)
    requires GoodLayout(l) && !outcome.Failed? && ChangeOf(l, op).Some? && l.locate(key).Ok?
    ensures Matches(ChangeOf(l, op).value, EffectOf(l, Event(op, outcome)), l.locate(key).value, l.canonical(key))
  {
    match op
    case SaveOp(saved, _, _, _) =>
    case PromoteOp(source, destination) =>
    case DeleteOp(deleted) =>
    case RestoreOp(_, _) =>
  }

  /** Every archive present is the one the run says is there. */
  ghost predicate Coherent(l: Layout, effects: seq<Effect>, files: Files) {
    forall key :: CoherentAt(l, effects, files, key)
  }

  ghost predicate CoherentAt(l: Layout, effects: seq<Effect>, files: Files, key: string) {
    l.locate(key).Ok? ==> Holds(effects, files, l.locate(key).value, l.canonical(key))
  }

  lemma MovedFrom(l: Layout, op: Op, outcome: Outcome)
    requires !outcome.Failed? && ChangeOf(l, op).Some? && op.PromoteOp?
    ensures l.locate(op.source) == Ok(ChangeOf(l, op).value.from)
    ensures EffectOf(l, Event(op, outcome)).from == l.canonical(op.source)
  {
  }

  /** One operation keeps the store coherent with the run. */
  lemma StepCoherent(l: Layout, effects: seq<Effect>, before: Files, event: Event, after: Files)
    requires GoodLayout(l) && Coherent(l, effects, before) && Step(l, before, event, after)
    ensures Coherent(l, effects + [EffectOf(l, event)], after)
  {
    forall key | l.locate(key).Ok?
      ensures Holds(effects + [EffectOf(l, event)], after, l.locate(key).value, l.canonical(key))
    {
      var path, k := l.locate(key).value, l.canonical(key);
      assert CoherentAt(l, effects, before, key);
      if !event.outcome.Failed? {
        var change := ChangeOf(l, event.op).value;
        OperationMatches(l, event.op, event.outcome, key);
        if event.op.PromoteOp? {
          assert CoherentAt(l, effects, before, event.op.source);
          MovedFrom(l, event.op, event.outcome);
        }
        ChangeHolds(l.budget, effects, before, change, EffectOf(l, event), after, path, k, event.outcome.Done?);
      } else {
        assert (effects + [NoEffect])[..|effects|] == effects;
      }
    }
  }

  /** A run from an empty cache directory: the files after each event. */
  ghost predicate Run(l: Layout, trace: seq<Event>, states: seq<Files>) {
    && |states| == |trace| + 1 && states[0] == map[]
    && forall i :: 0 <= i < |trace| ==> Step(l, states[i], trace[i], states[i + 1])
  }

  /** Over every run, failed evictions included, what a key holds is a miss or exactly the expected content. */
  lemma {:induction false} RunCoherent(l: Layout, trace: seq<Event>, states: seq<Files>)
    requires GoodLayout(l) && Run(l, trace, states)
    ensures Coherent(l, Effects(l, trace), states[|trace|])
    decreases |trace|
  {
    if trace != [] {
      var n := |trace| - 1;
      var shorter := trace[..n];
      assert Run(l, shorter, states[..n + 1]);
      RunCoherent(l, shorter, states[..n + 1]);
      assert Effects(l, shorter) + [EffectOf(l, trace[n])] == Effects(l, trace);
      StepCoherent(l, Effects(l, shorter), states[n], trace[n], states[n + 1]);
    }
  }

  /** After every successful save or promotion of a run the archives fit the budget. */
  lemma RunFits(l: Layout, trace: seq<Event>, states: seq<Files>, i: nat, entries: seq<CacheEntry>)
    requires GoodLayout(l) && Run(l, trace, states) && i < |trace|
    requires trace[i].outcome.Done? && (trace[i].op.SaveOp? || trace[i].op.PromoteOp?)
    requires Lists(states[i + 1], entries)
    ensures Total(entries) <= l.budget
  {
    assert Step(l, states[i], trace[i], states[i + 1]);
    var before := states[i];
    match ChangeOf(l, trace[i].op).value
    case Write(path, stored) =>
      EvictionFits(before[path := stored], states[i + 1], l.budget, entries);
    case Move(from, to) =>
      EvictionFits((before - {from})[to := before[from]], states[i + 1], l.budget, entries);
  }

  // ---------------------------------------------------------------------------
  // While everything fits, nothing is lost

  /** The files after a change, before any eviction. */
  function Changed(before: Files, change: Change): Files {
    match change
    case Write(path, stored) => before[path := stored]
    case Move(from, to) => if from in before then (before - {from})[to := before[from]] else before
    case Remove(path) => before - {path}
    case Touch(path, now) => if path in before then before[path := before[path].(lastUse := now)] else before
  }

  ghost predicate Fits(budget: int, files: Files) {
    forall entries :: Lists(files, entries) ==> Total(entries) <= budget
  }

  /** If the event is followed by an eviction, the archives fit the budget before it. */
  ghost predicate RoomAt(l: Layout, before: Files, event: Event) {
    var change := ChangeOf(l, event.op);
    !event.outcome.Failed? && change.Some? && (change.value.Write? || change.value.Move?) ==>
      Fits(l.budget, Changed(before, change.value))
  }

  lemma NothingEvicted(budget: int, files: Files, after: Files, done: bool)
    requires budget > 0 && Settles(budget, files, after, done) && Fits(budget, files)
    ensures after == files
  {
    if done {
      var order: seq<CacheEntry>, n: nat :| EvictsFirst(files, after, budget, order, n);
      FitsAlready(files, after, budget, order);
    } else {
      var order: seq<CacheEntry>, n: nat :| StuckAt(budget, files, after, order, n);
      assert order[0..] == order;
    }
  }

  lemma AppliedWhole(l: Layout, before: Files, event: Event, after: Files)
    requires GoodLayout(l) && Step(l, before, event, after) && RoomAt(l, before, event) && !event.outcome.Failed?
    ensures var change := ChangeOf(l, event.op);
            change.Some? && after == Changed(before, change.value) && (change.value.Move? ==> change.value.from in before)
  {
    var change := ChangeOf(l, event.op).value;
    if change.Write? || change.Move? {
      NothingEvicted(l.budget, Changed(before, change), after, event.outcome.Done?);
    }
  }

  /** The file is there exactly when the run says something is under the key. */
  ghost predicate Present(effects: seq<Effect>, files: Files, path: string, k: string) {
    path in files <==> Expected(effects, k).Some?
  }

  lemma ChangePresent(effects: seq<Effect>, before: Files, change: Change, effect: Effect, path: string, k: string)
    requires Matches(change, effect, path, k) && Present(effects, before, path, k)
    requires change.Move? && effect.Rename? ==> change.from in before && Present(effects, before, change.from, effect.from)
    ensures Present(effects + [effect], Changed(before, change), path, k)
  {
    AppendFront(effects, effect);
    match change
    case Write(p, stored) =>
    case Move(from, to) =>
    case Remove(_) =>
    case Touch(_, _) =>
  }

  ghost predicate Complete(l: Layout, effects: seq<Effect>, files: Files) {
    forall key :: PresentAt(l, effects, files, key)
  }

  ghost predicate PresentAt(l: Layout, effects: seq<Effect>, files: Files, key: string) {
    l.locate(key).Ok? ==> Present(effects, files, l.locate(key).value, l.canonical(key))
  }

  lemma StepComplete(l: Layout, effects: seq<Effect>, before: Files, event: Event, after: Files)
    requires GoodLayout(l) && Complete(l, effects, before) && Step(l, before, event, after) && RoomAt(l, before, event)
    ensures Complete(l, effects + [EffectOf(l, event)], after)
  {
    forall key | l.locate(key).Ok?
      ensures Present(effects + [EffectOf(l, event)], after, l.locate(key).value, l.canonical(key))
    {
      assert PresentAt(l, effects, before, key);
      if event.outcome.Failed? {
        AppendFront(effects, NoEffect);
      } else {
        AppliedWhole(l, before, event, after);
        OperationMatches(l, event.op, event.outcome, key);
        if event.op.PromoteOp? {
          assert PresentAt(l, effects, before, event.op.source);
          MovedFrom(l, event.op, event.outcome);
        }
        ChangePresent(effects, before, ChangeOf(l, event.op).value, EffectOf(l, event), l.locate(key).value, l.canonical(key));
      }
    }
  }

  /** Over every run in which the archives fit the budget before every eviction, a key holds
      an archive exactly when the run says that something is under it; by `RunCoherent` it
      is then what the run says. */
  lemma {:induction false} RunComplete(l: Layout, trace: seq<Event>, states: seq<Files>)
    requires GoodLayout(l) && Run(l, trace, states)
    requires forall i :: 0 <= i < |trace| ==> RoomAt(l, states[i], trace[i])
    ensures Complete(l, Effects(l, trace), states[|trace|])
    decreases |trace|
  {
    if trace != [] {
      var n := |trace| - 1;
      var shorter := trace[..n];
      assert Run(l, shorter, states[..n + 1]);
      RunComplete(l, shorter, states[..n + 1]);
      assert Effects(l, shorter) + [EffectOf(l, trace[n])] == Effects(l, trace);
      StepComplete(l, Effects(l, shorter), states[n], trace[n], states[n + 1]);
    }
  }

  // ---------------------------------------------------------------------------
  // Restoring after a run

  /** Nothing but the destination itself, if that, is at or below it. */
  ghost predicate NothingBelow(fs: Fs, at: Path) {
    forall p :: p in fs && Inside(at, p) ==> p == at
  }

  /** Restoring a key after any run either misses or gives back exactly the tree last
      archived under it, if and only if that tree has no backslash in its names. The
      destination may be an empty directory, or not exist as long as no file is in its way;
      then it is made. */
  lemma RestoredTree(cfg: Config, trace: seq<Event>, states: seq<Files>, key: string,
                     children: seq<Child>, fs: Fs, root: string)
    requires GoodConfig(cfg) && Run(LayoutOf(cfg), trace, states)
    requires ResolvePath(cfg, key).Ok? && ResolvePath(cfg, key).value in states[|trace|]
    requires Expected(Effects(LayoutOf(cfg), trace), CanonicalKey(key)) == Some(ChildEntries([], children))
    requires Archive.Valid(Dir(children)) && Storable(Dir(children))
    requires WellFormed(fs) && NothingBelow(fs, Parse(root)) && MakeDirs(fs, Parse(root)).1
    ensures Extracts(fs, root, states[|trace|][ResolvePath(cfg, key).value].content,
                     MakeDirs(fs, Parse(root)).0 + LaidIn(Parse(root), children))
            <==> Portable(Dir(children))
  {
    StoreLayoutGood(cfg);
    RunCoherent(LayoutOf(cfg), trace, states);
    assert CoherentAt(LayoutOf(cfg), Effects(LayoutOf(cfg), trace), states[|trace|], key);
    MadeEmpty(fs, Parse(root));
    RoundTripExactly(MakeDirs(fs, Parse(root)).0, root, children);
  }

  lemma MadeEmpty(fs: Fs, at: Path)
    requires WellFormed(fs) && NothingBelow(fs, at) && MakeDirs(fs, at).1
    ensures var made := MakeDirs(fs, at).0; WellFormed(made) && IsDir(made, at) && NothingBelow(made, at)
  {
    var made := MakeDirs(fs, at).0;
    MakeDirsExactly(fs, at);
    AboveItself(at);
    forall p | p in made ensures (p.segs != [] ==> IsDir(made, Parent(p))) && (Inside(at, p) ==> p == at) {
      if p !in fs {
        var k :| 0 <= k <= |at.segs| && p == Above(at, k);
        ParentAbove(at, k);
      }
    }
  }

  lemma AboveItself(p: Path)
    ensures Above(p, |p.segs|) == p
  {
    assert p.segs[..|p.segs|] == p.segs;
  }

  lemma ParentAbove(p: Path, k: nat)
    requires k <= |p.segs|
    ensures k > 0 ==> Parent(Above(p, k)) == Above(p, k - 1)
    ensures Inside(p, Above(p, k)) ==> Above(p, k) == p
  {
    if k > 0 { assert p.segs[..k][..k - 1] == p.segs[..k - 1]; }
    if k == |p.segs| { AboveItself(p); }
  }
}
