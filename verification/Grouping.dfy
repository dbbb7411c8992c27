/** Browsing artifacts: the produced artifact instances are grouped by identity, the
    versions of a group are sorted newest first, and so are the groups. */
module Grouping {
  import opened Text
  import opened Sorting

  /** One produced artifact with what grouping reads of its build. The type is the
      resolved one. */
  datatype Record = Record(
    artifactID: string, name: string, path: string, kind: string, createdAt: int,
    buildID: string, buildNumber: int, projectID: string, jobID: Option<string>)

  datatype Group = Group(
    key: string, name: string, path: string, projectID: string, jobID: Option<string>,
    kind: string, latest: int, versions: seq<Record>)

  // ---------------------------------------------------------------------------
  // Identity

  /** The job when there is one, the build otherwise. */
  function OwnerID(r: Record): string {
    if r.jobID.Some? && Trim(r.jobID.value) != "" then Trim(r.jobID.value) else r.buildID
  }

  function KeyFor(owner: string, path: string): string { owner + "::" + path }

  function IdentityKey(r: Record): string { KeyFor(OwnerID(r), r.path) }

  lemma FirstColon(owner: string, path: string)
    requires ':' !in owner
    ensures KeyFor(owner, path)[|owner|] == ':'
    ensures forall k :: 0 <= k < |owner| ==> KeyFor(owner, path)[k] != ':'
    ensures KeyFor(owner, path)[..|owner|] == owner && KeyFor(owner, path)[|owner| + 2..] == path
  {
    forall k | 0 <= k < |owner| ensures KeyFor(owner, path)[k] != ':' { assert owner[k] in owner; }
  }

  /** Owners without a colon and their paths can be read back from the key. */
  lemma KeyForInjective(a: string, p: string, b: string, q: string)
    requires ':' !in a && ':' !in b && KeyFor(a, p) == KeyFor(b, q)
    ensures a == b && p == q
  {
    FirstColon(a, p);
    FirstColon(b, q);
    assert |a| == |b|;
  }

  // ---------------------------------------------------------------------------
  // Groups, as a function of the records. How a record is identified is a parameter;
  // the program uses `IdentityKey`.

  type Identity = Record -> string

  /** The keys in order of first appearance. */
  function Keys(id: Identity, records: seq<Record>): seq<string> {
    if records == [] then []
    else
      var front, key := Keys(id, records[..|records| - 1]), id(records[|records| - 1]);
      if key in front then front else front + [key]
  }

  /** The records of one group, in input order. */
  function Members(id: Identity, records: seq<Record>, key: string): seq<Record> {
    if records == [] then []
    else
      var front, last := Members(id, records[..|records| - 1], key), records[|records| - 1];
      if id(last) == key then front + [last] else front
  }

  /** The first record none of the others is newer than. */
  function Newest(records: seq<Record>): (r: Record)
    requires records != []
    ensures r in records
  {
    var front, last := records[..|records| - 1], records[|records| - 1];
    if front == [] then last
    else if last.createdAt > Newest(front).createdAt then last
    else assert Newest(front) in records; Newest(front)
  }

  function Summary(key: string, members: seq<Record>, versions: seq<Record>): Group
    requires members != []
  {
    var first, newest := members[0], Newest(members);
    Group(key, newest.name, first.path, first.projectID, first.jobID, newest.kind, newest.createdAt, versions)
  }

  /** Newest first; builds of equal time by falling number. */
  predicate VersionLe(a: Record, b: Record) {
    a.createdAt > b.createdAt || (a.createdAt == b.createdAt && a.buildNumber >= b.buildNumber)
  }

  /** Newest first, then by path, then by key. */
  predicate GroupLe(a: Group, b: Group) { HeadLe(HeadOf(a), HeadOf(b)) }

  /** What the order of the groups looks at. */
  datatype Head = Head(key: string, path: string, latest: int)

  function HeadOf(g: Group): Head { Head(g.key, g.path, g.latest) }

  predicate HeadLe(a: Head, b: Head) {
    if a.latest != b.latest then a.latest > b.latest
    else if a.path != b.path then StringLe(a.path, b.path)
    else StringLe(a.key, b.key)
  }

  /** The finished group of a key. */
  function GroupOf(id: Identity, records: seq<Record>, key: string): Group
    requires Members(id, records, key) != []
  {
    var members := Members(id, records, key);
    Summary(key, members, Sort(members, VersionLe))
  }

  function Groups(id: Identity, records: seq<Record>, keys: seq<string>): (r: seq<Group>)
    requires forall key <- keys :: Members(id, records, key) != []
    ensures |r| == |keys| && forall i :: 0 <= i < |r| ==> r[i] == GroupOf(id, records, keys[i])
  {
    seq(|keys|, i requires 0 <= i < |keys| => GroupOf(id, records, keys[i]))
  }

  lemma {:induction false} MemberMeaning(id: Identity, records: seq<Record>, key: string)
    ensures forall r :: r in Members(id, records, key) <==> r in records && id(r) == key
    ensures Members(id, records, key) != [] <==> key in Keys(id, records)
    decreases |records|
  {
    if records != [] {
      MemberMeaning(id, records[..|records| - 1], key);
      FrontAndLast(records);
    }
  }

  lemma KeysHaveMembers(id: Identity, records: seq<Record>)
    ensures forall key <- Keys(id, records) :: Members(id, records, key) != []
  {
    forall key | key in Keys(id, records) ensures Members(id, records, key) != [] {
      MemberMeaning(id, records, key);
    }
  }

  lemma {:induction false} KeysDistinct(id: Identity, records: seq<Record>)
    ensures Distinct(Keys(id, records))
    decreases |records|
  {
    if records != [] { KeysDistinct(id, records[..|records| - 1]); }
  }

  // ---------------------------------------------------------------------------
  // The grouping loop

  /** A pending group holds its records so far, in input order. */
  ghost predicate PendingAt(id: Identity, records: seq<Record>, key: string, g: Group) {
    var members := Members(id, records, key);
    members != [] && g == Summary(key, members, members)
  }

  /** The pending groups hold exactly the records seen so far. */
  ghost predicate Pending(id: Identity, records: seq<Record>, grouped: map<string, Group>) {
    && (forall key :: key in grouped <==> key in Keys(id, records))
    && forall key <- grouped :: PendingAt(id, records, key, grouped[key])
  }

  /** A record joins its group. */
  function Extend(item: Group, record: Record): Group {
    var grown := item.(versions := item.versions + [record]);
    if record.createdAt > item.latest then
      grown.(latest := record.createdAt, name := record.name, kind := record.kind)
    else grown
  }

  /** A group before its first record joins. */
  function Started(key: string, record: Record): Group {
    Group(key, record.name, record.path, record.projectID, record.jobID, record.kind, record.createdAt, [])
  }

  lemma ExtendSummary(key: string, members: seq<Record>, record: Record)
    ensures members == [] ==>
              Extend(Started(key, record), record) == Summary(key, members + [record], members + [record])
    ensures members != [] ==>
              Extend(Summary(key, members, members), record) == Summary(key, members + [record], members + [record])
  {
    assert (members + [record])[..|members|] == members;
  }

  /** One record joins its group, or starts it. */
  method AddRecord(id: Identity, ghost records: seq<Record>, record: Record, grouped: map<string, Group>, order: seq<string>)
    returns (g: map<string, Group>, o: seq<string>)
    requires Pending(id, records, grouped) && order == Keys(id, records)
    ensures Pending(id, records + [record], g) && o == Keys(id, records + [record])
  {
    var key := id(record);
    g, o := grouped, order;
    var item := Started(key, record);
    if key in grouped { item := grouped[key]; } else { o := o + [key]; }
    g := g[key := Extend(item, record)];
    AddedRecord(id, records, record);
    JoinedGroup(id, records, record, if key in grouped then Some(item) else None);
    forall k | k in g ensures PendingAt(id, records + [record], k, g[k]) {
      if k != key { OtherGroup(id, records, record, k, g[k]); }
    }
  }

  lemma JoinedGroup(id: Identity, records: seq<Record>, record: Record, item: Option<Group>)
    requires item.None? <==> id(record) !in Keys(id, records)
    requires item.Some? ==> PendingAt(id, records, id(record), item.value)
    ensures var key := id(record);
            PendingAt(id, records + [record], key, Extend(if item.None? then Started(key, record) else item.value, record))
  {
    AddedRecord(id, records, record);
    MemberMeaning(id, records, id(record));
    ExtendSummary(id(record), Members(id, records, id(record)), record);
  }

  lemma OtherGroup(id: Identity, records: seq<Record>, record: Record, key: string, g: Group)
    requires id(record) != key && PendingAt(id, records, key, g)
    ensures PendingAt(id, records + [record], key, g)
  {
    AddedRecord(id, records, record);
  }

  lemma AddedRecord(id: Identity, records: seq<Record>, record: Record)
    ensures Keys(id, records + [record]) ==
            Keys(id, records) + if id(record) in Keys(id, records) then [] else [id(record)]
    ensures forall key :: Members(id, records + [record], key) ==
                          Members(id, records, key) + if id(record) == key then [record] else []
  {
    assert (records + [record])[..|records|] == records;
  }

  /** The result lists the finished groups, sorted. */
  method GroupArtifacts(id: Identity, records: seq<Record>) returns (items: seq<Group>)
    ensures forall key <- Keys(id, records) :: Members(id, records, key) != []
    ensures items == Sort(Groups(id, records, Keys(id, records)), GroupLe)
  {
    var grouped: map<string, Group>, order: seq<string> := map[], [];
    var i := 0;
    while i < |records|
      invariant 0 <= i <= |records|
      invariant Pending(id, records[..i], grouped) && order == Keys(id, records[..i])
    {
      TakeMore(records, i);
      grouped, order := AddRecord(id, records[..i], records[i], grouped, order);
      i := i + 1;
    }
    TakeAll(records);
    KeysHaveMembers(id, records);
    var finished := Finish(id, records, grouped, order);
    items := Sort(finished, GroupLe);
  }

  /** The versions of every group are sorted, group by group in order of appearance. */
  method Finish(id: Identity, ghost records: seq<Record>, grouped: map<string, Group>, order: seq<string>)
    returns (finished: seq<Group>)
    requires Pending(id, records, grouped) && order == Keys(id, records)
    requires forall key <- order :: Members(id, records, key) != []
    ensures finished == Groups(id, records, order)
  {
    finished := [];
    var i := 0;
    while i < |order|
      invariant 0 <= i <= |order|
      invariant |finished| == i && forall j :: 0 <= j < i ==> finished[j] == GroupOf(id, records, order[j])
    {
      var item := grouped[order[i]];
      FinishOne(id, records, order[i], item);
      finished := finished + [item.(versions := Sort(item.versions, VersionLe))];
      i := i + 1;
    }
    assert finished == Groups(id, records, order);
  }

  lemma FinishOne(id: Identity, records: seq<Record>, key: string, item: Group)
    requires PendingAt(id, records, key, item)
    ensures item.(versions := Sort(item.versions, VersionLe)) == GroupOf(id, records, key)
  {
  }

  /** The list the method returns. */
  function Grouped(id: Identity, records: seq<Record>): seq<Group> {
    KeysHaveMembers(id, records);
    Sort(Groups(id, records, Keys(id, records)), GroupLe)
  }

  // ---------------------------------------------------------------------------
  // Orders

  lemma VersionOrder()
    ensures TotalPreorder(VersionLe)
  {
  }

  lemma HeadOrder(a: Head, b: Head, c: Head)
    ensures HeadLe(a, b) || HeadLe(b, a)
    ensures HeadLe(a, b) && HeadLe(b, c) ==> HeadLe(a, c)
    ensures HeadLe(a, b) && HeadLe(b, a) ==> a == b
  {
    StringLeTotal(a.path, b.path);
    StringLeTotal(a.key, b.key);
    if StringLe(a.path, b.path) && StringLe(b.path, c.path) { StringLeTransitive(a.path, b.path, c.path); }
    if StringLe(a.key, b.key) && StringLe(b.key, c.key) { StringLeTransitive(a.key, b.key, c.key); }
    if StringLe(a.path, b.path) && StringLe(b.path, a.path) { StringLeAntisymmetric(a.path, b.path); }
    if StringLe(a.key, b.key) && StringLe(b.key, a.key) { StringLeAntisymmetric(a.key, b.key); }
    if StringLe(a.path, b.path) && StringLe(b.path, c.path) && a.path == c.path {
      StringLeAntisymmetric(a.path, b.path);
    }
  }

  lemma GroupOrder()
    ensures TotalPreorder(GroupLe)
  {
    forall a, b ensures GroupLe(a, b) || GroupLe(b, a) { HeadOrder(HeadOf(a), HeadOf(b), HeadOf(a)); }
    forall a, b, c | GroupLe(a, b) && GroupLe(b, c) ensures GroupLe(a, c) { HeadOrder(HeadOf(a), HeadOf(b), HeadOf(c)); }
  }

  // ---------------------------------------------------------------------------
  // What a result holds

  /** A group is in the result exactly when it is the finished group of a record's key. */
  lemma GroupedMembers(id: Identity, records: seq<Record>, g: Group)
    ensures g in Grouped(id, records) <==>
            g.key in Keys(id, records) && Members(id, records, g.key) != [] && g == GroupOf(id, records, g.key)
  {
    KeysHaveMembers(id, records);
    var keys := Keys(id, records);
    var groups := Groups(id, records, keys);
    SortPermutes(groups, GroupLe);
    PermutationMembers(groups, Sort(groups, GroupLe));
    if g.key in keys && g == GroupOf(id, records, g.key) {
      var i :| 0 <= i < |keys| && keys[i] == g.key;
      assert groups[i] == g;
    }
  }

  /** The groups come newest first and no key comes twice. */
  lemma GroupedOrder(id: Identity, records: seq<Record>)
    ensures Sorted(Grouped(id, records), GroupLe)
    ensures forall i, j :: 0 <= i < j < |Grouped(id, records)| ==> Grouped(id, records)[i].key != Grouped(id, records)[j].key
  {
    KeysHaveMembers(id, records);
    KeysDistinct(id, records);
    var keys := Keys(id, records);
    var groups := Groups(id, records, keys);
    GroupOrder();
    SortSorted(groups, GroupLe);
    SortPermutes(groups, GroupLe);
    assert Distinct(groups) by {
      forall i, j | 0 <= i < j < |groups| ensures groups[i] != groups[j] { assert keys[i] != keys[j]; }
    }
    var items := Grouped(id, records);
    DistinctPermuted(groups, items);
    forall i, j | 0 <= i < j < |items| ensures items[i].key != items[j].key {
      GroupedMembers(id, records, items[i]);
      GroupedMembers(id, records, items[j]);
    }
  }

  lemma {:induction false} NewestFirst(records: seq<Record>) returns (k: nat)
    requires records != []
    ensures k < |records| && records[k] == Newest(records)
    ensures forall j :: 0 <= j < k ==> records[j].createdAt < records[k].createdAt
    ensures forall j :: k <= j < |records| ==> records[j].createdAt <= records[k].createdAt
    decreases |records|
  {
    var n := |records| - 1;
    var front, last := records[..n], records[n];
    k := n;
    if front != [] {
      var i := NewestFirst(front);
      assert forall j :: 0 <= j < n ==> records[j] == front[j];
      if last.createdAt <= front[i].createdAt { k := i; }
    }
  }

  lemma NewestMeaning(records: seq<Record>)
    requires records != []
    ensures forall r <- records :: r.createdAt <= Newest(records).createdAt
    ensures exists k :: 0 <= k < |records| && records[k] == Newest(records)
                        && forall j :: 0 <= j < k ==> records[j].createdAt < Newest(records).createdAt
  {
    var k := NewestFirst(records);
  }

  /** A finished group: its versions are its records, newest first, each carrying the
      group's key; the latest time is the greatest and that of the first version. */
  lemma GroupMeaning(id: Identity, records: seq<Record>, g: Group)
    requires g in Grouped(id, records)
    ensures multiset(g.versions) == multiset(Members(id, records, g.key))
    ensures forall r <- g.versions :: r in records && id(r) == g.key && r.createdAt <= g.latest
    ensures Sorted(g.versions, VersionLe)
    ensures g.versions != [] && g.versions[0].createdAt == g.latest
  {
    GroupedMembers(id, records, g);
    var members := Members(id, records, g.key);
    SortPermutes(members, VersionLe);
    PermutationMembers(members, g.versions);
    MemberMeaning(id, records, g.key);
    VersionOrder();
    SortSorted(members, VersionLe);
    NewestMeaning(members);
    assert g.versions[0] in g.versions;
    assert Newest(members) in g.versions;
    SortedHead(g.versions, Newest(members), VersionLe);
  }

  /** A group takes its name and type from the first listed of its newest records. That
      record is its first version exactly when no record of the same time has a greater
      build number. */
  lemma NamedByFirstVersion(id: Identity, records: seq<Record>, g: Group)
    requires g in Grouped(id, records)
    ensures Members(id, records, g.key) != [] && g.versions != []
    ensures var newest := Newest(Members(id, records, g.key));
            && g.name == newest.name && g.kind == newest.kind
            && (newest == g.versions[0] <==>
                forall r <- g.versions :: r.createdAt == newest.createdAt ==> r.buildNumber <= newest.buildNumber)
  {
    GroupedMembers(id, records, g);
    GroupMeaning(id, records, g);
    var members := Members(id, records, g.key);
    PermutationMembers(members, g.versions);
    NewestMeaning(members);
    var k := SortHeadStable(members, VersionLe);
    FirstOfTies(members, g.versions, k);
  }

  lemma FirstOfTies(members: seq<Record>, versions: seq<Record>, k: nat)
    requires members != [] && versions != [] && Sorted(versions, VersionLe)
    requires forall r :: r in members <==> r in versions
    requires k < |members| && versions[0] == members[k] && forall j :: 0 <= j < k ==> !VersionLe(members[j], members[k])
    ensures var newest := Newest(members);
            newest == versions[0] <==>
            forall r <- versions :: r.createdAt == newest.createdAt ==> r.buildNumber <= newest.buildNumber
  {
    var newest := Newest(members);
    NewestMeaning(members);
    forall r | r in versions ensures VersionLe(versions[0], r) { SortedHead(versions, r, VersionLe); }
    assert newest in versions && versions[0] in versions;
    if newest.buildNumber >= versions[0].buildNumber {
      var n :| 0 <= n < |members| && members[n] == newest && forall j :: 0 <= j < n ==> members[j].createdAt < newest.createdAt;
      assert VersionLe(members[n], members[k]);
      assert k == n;
    }
  }

  /** Two records of equal time: the group is named after the first listed one although
      the later build comes first among its versions. */
  lemma NameOnTie(id: Identity, a: Record, b: Record)
    requires id(a) == id(b) && a.createdAt == b.createdAt && a.buildNumber < b.buildNumber && a.name != b.name
    ensures Members(id, [a, b], id(a)) != []
    ensures var g := GroupOf(id, [a, b], id(a));
            g in Grouped(id, [a, b]) && g.versions != [] && g.name == a.name && g.versions[0].name == b.name
  {
    var records := [a, b];
    assert records[..1] == [a] && [a][..0] == [];
    assert Members(id, [a], id(a)) == [a];
    assert Members(id, records, id(a)) == [a, b];
    assert Newest([a]) == a && Newest(records) == a;
    MemberMeaning(id, records, id(a));
    var g := GroupOf(id, records, id(a));
    GroupedMembers(id, records, g);
    GroupMeaning(id, records, g);
    PermutationMembers(records, g.versions);
    assert b in g.versions && g.versions[0] in records;
    SortedHead(g.versions, b, VersionLe);
  }

  // ---------------------------------------------------------------------------
  // Conservation

  function AllVersions(items: seq<Group>): seq<Record> {
    if items == [] then [] else items[0].versions + AllVersions(items[1..])
  }

  lemma {:induction false} MembersCount(id: Identity, records: seq<Record>, key: string, r: Record)
    ensures multiset(Members(id, records, key))[r] == if id(r) == key then multiset(records)[r] else 0
    decreases |records|
  {
    if records != [] {
      MembersCount(id, records[..|records| - 1], key, r);
      FrontAndLast(records);
    }
  }

  lemma {:induction false} VersionsCount(id: Identity, records: seq<Record>, items: seq<Group>, r: Record)
    requires forall i, j :: 0 <= i < j < |items| ==> items[i].key != items[j].key
    requires forall g <- items :: multiset(g.versions) == multiset(Members(id, records, g.key))
    ensures multiset(AllVersions(items))[r] == if exists g <- items :: g.key == id(r) then multiset(records)[r] else 0
  {
    if items != [] {
      var first, rest := items[0], items[1..];
      VersionsCount(id, records, rest, r);
      MembersCount(id, records, first.key, r);
      assert first in items && forall g :: g in items <==> g == first || g in rest;
      assert forall g <- rest :: g.key != first.key;
    }
  }

  /** Grouping loses no record and invents none. */
  lemma VersionsConserved(id: Identity, records: seq<Record>)
    ensures multiset(AllVersions(Grouped(id, records))) == multiset(records)
  {
    var items := Grouped(id, records);
    GroupedOrder(id, records);
    forall g | g in items ensures multiset(g.versions) == multiset(Members(id, records, g.key)) {
      GroupMeaning(id, records, g);
    }
    forall r ensures multiset(AllVersions(items))[r] == multiset(records)[r] {
      VersionsCount(id, records, items, r);
      if r in records { RecordGrouped(id, records, r); }
    }
  }

  lemma RecordGrouped(id: Identity, records: seq<Record>, r: Record)
    requires r in records
    ensures exists g <- Grouped(id, records) :: g.key == id(r)
  {
    MemberMeaning(id, records, id(r));
    assert r in Members(id, records, id(r));
    GroupedMembers(id, records, GroupOf(id, records, id(r)));
  }

  // ---------------------------------------------------------------------------
  // Independence of the input order

  function Heads(items: seq<Group>): (r: seq<Head>)
    ensures |r| == |items| && forall i :: 0 <= i < |r| ==> r[i] == HeadOf(items[i])
  {
    seq(|items|, i requires 0 <= i < |items| => HeadOf(items[i]))
  }

  /** The key of a record determines its path. */
  ghost predicate KeysFixPaths(id: Identity, records: seq<Record>) {
    forall a, b :: a in records && b in records && id(a) == id(b) ==> a.path == b.path
  }

  lemma HeadMoves(id: Identity, a: seq<Record>, b: seq<Record>, g: Group) returns (h: Group)
    requires multiset(a) == multiset(b) && KeysFixPaths(id, a) && g in Grouped(id, a)
    ensures h in Grouped(id, b) && HeadOf(h) == HeadOf(g)
  {
    PermutationMembers(a, b);
    GroupedMembers(id, a, g);
    var key := g.key;
    MemberMeaning(id, a, key);
    MemberMeaning(id, b, key);
    var ours, theirs := Members(id, a, key), Members(id, b, key);
    assert ours[0] in ours && ours[0] in theirs && theirs[0] in theirs;
    h := GroupOf(id, b, key);
    GroupedMembers(id, b, h);
    NewestMeaning(ours);
    NewestMeaning(theirs);
    assert Newest(ours) in theirs && Newest(theirs) in ours;
  }

  lemma HeadsSorted(id: Identity, records: seq<Record>)
    ensures Sorted(Heads(Grouped(id, records)), HeadLe) && Distinct(Heads(Grouped(id, records)))
  {
    GroupedOrder(id, records);
    var items := Grouped(id, records);
    var heads := Heads(items);
    forall i, j | 0 <= i < j < |heads| ensures HeadLe(heads[i], heads[j]) && heads[i] != heads[j] {
      assert GroupLe(items[i], items[j]) && items[i].key != items[j].key;
    }
  }

  lemma HeadsMove(id: Identity, a: seq<Record>, b: seq<Record>, x: Head)
    requires multiset(a) == multiset(b) && KeysFixPaths(id, a) && x in Heads(Grouped(id, a))
    ensures x in Heads(Grouped(id, b))
  {
    var i :| 0 <= i < |Grouped(id, a)| && x == HeadOf(Grouped(id, a)[i]);
    var h := HeadMoves(id, a, b, Grouped(id, a)[i]);
    var j :| 0 <= j < |Grouped(id, b)| && h == Grouped(id, b)[j];
    assert Heads(Grouped(id, b))[j] == x;
  }

  /** The ordered list of keys, paths and latest times does not depend on the order of
      the records. */
  lemma OrderFree(id: Identity, a: seq<Record>, b: seq<Record>)
    requires multiset(a) == multiset(b) && KeysFixPaths(id, a)
    ensures Heads(Grouped(id, a)) == Heads(Grouped(id, b))
  {
    PermutationMembers(a, b);
    var ours, theirs := Heads(Grouped(id, a)), Heads(Grouped(id, b));
    HeadsSorted(id, a);
    HeadsSorted(id, b);
    forall x ensures x in ours <==> x in theirs {
      if x in ours { HeadsMove(id, a, b, x); }
      if x in theirs { HeadsMove(id, b, a, x); }
    }
    DistinctPermutation(ours, theirs);
    forall x, y | HeadLe(x, y) && HeadLe(y, x) ensures x == y { HeadOrder(x, y, x); }
    SortedUnique(ours, theirs, HeadLe);
  }

  lemma {:induction false} FirstMember(id: Identity, records: seq<Record>)
    requires records != []
    ensures var members := Members(id, records, id(records[0])); members != [] && members[0] == records[0]
    decreases |records|
  {
    if |records| > 1 { FirstMember(id, records[..|records| - 1]); }
  }

  /** Listing a record first puts its path into the result. */
  lemma PathOfFirst(id: Identity, records: seq<Record>, r: Record) returns (moved: seq<Record>, h: Head)
    requires r in records
    ensures multiset(moved) == multiset(records)
    ensures h in Heads(Grouped(id, moved)) && h.key == id(r) && h.path == r.path
  {
    var i :| 0 <= i < |records| && records[i] == r;
    WithoutMultiset(records, i);
    moved := [r] + (records[..i] + records[i + 1..]);
    h := FirstHead(id, moved);
  }

  lemma KeyOnce(id: Identity, records: seq<Record>, x: Head, y: Head)
    requires x in Heads(Grouped(id, records)) && y in Heads(Grouped(id, records)) && x.key == y.key
    ensures x == y
  {
    GroupedOrder(id, records);
    var items := Grouped(id, records);
    var i :| 0 <= i < |items| && HeadOf(items[i]) == x;
    var j :| 0 <= j < |items| && HeadOf(items[j]) == y;
    assert i == j;
  }

  /** The listing is the same for every order of the records exactly when keys fix paths. */
  lemma OrderFreeExactly(id: Identity, records: seq<Record>)
    ensures KeysFixPaths(id, records) <==>
            forall other :: multiset(other) == multiset(records) ==> Heads(Grouped(id, other)) == Heads(Grouped(id, records))
  {
    if KeysFixPaths(id, records) {
      forall other | multiset(other) == multiset(records)
        ensures Heads(Grouped(id, other)) == Heads(Grouped(id, records))
      {
        OrderFree(id, records, other);
      }
    }
    if forall other :: multiset(other) == multiset(records) ==> Heads(Grouped(id, other)) == Heads(Grouped(id, records)) {
      forall a, b | a in records && b in records && id(a) == id(b) ensures a.path == b.path {
        var first, x := PathOfFirst(id, records, a);
        var second, y := PathOfFirst(id, records, b);
        KeyOnce(id, records, x, y);
      }
    }
  }

  /** Two records of one key and two paths: the listing shows the path of the first. */
  lemma OrdersDiffer(id: Identity, a: Record, b: Record)
    requires id(a) == id(b) && a.path != b.path
    ensures Heads(Grouped(id, [a, b])) != Heads(Grouped(id, [b, a]))
  {
    var x := FirstHead(id, [a, b]);
    var y := FirstHead(id, [b, a]);
    if Heads(Grouped(id, [a, b])) == Heads(Grouped(id, [b, a])) { KeyOnce(id, [a, b], x, y); }
  }

  lemma FirstHead(id: Identity, records: seq<Record>) returns (h: Head)
    requires records != []
    ensures h in Heads(Grouped(id, records)) && h.key == id(records[0]) && h.path == records[0].path
  {
    FirstMember(id, records);
    MemberMeaning(id, records, id(records[0]));
    var g := GroupOf(id, records, id(records[0]));
    GroupedMembers(id, records, g);
    h := HeadOf(g);
    var j :| 0 <= j < |Grouped(id, records)| && Grouped(id, records)[j] == g;
    assert Heads(Grouped(id, records))[j] == h;
  }

  lemma OwnerIsJob(r: Record, job: string)
    requires r.jobID == Some(job) && Trimmed(job) && job != ""
    ensures OwnerID(r) == job
  {
    TrimFixpoint(job);
  }

  lemma ColonsMove(owner: string, path: string)
    ensures KeyFor(owner, "::" + path) == KeyFor(owner + "::", path)
  {
  }

  /** Under the program's own keys: the artifact `::p` of a job `j` and the artifact `p` of a
      job `j::` are taken for the same one, and listed in one order or the other they are
      listed differently. */
  lemma ColonsCollide(id: Identity, job: string, path: string, a: Record, b: Record)
    requires id == IdentityKey
    requires Trimmed(job) && job != ""
    requires a.jobID == Some(job) && a.path == "::" + path && b.jobID == Some(job + "::") && b.path == path
    ensures id(a) == id(b) && Heads(Grouped(id, [a, b])) != Heads(Grouped(id, [b, a]))
  {
    SameIdentity(job, path, a, b);
    OrdersDiffer(id, a, b);
  }

  lemma SameIdentity(job: string, path: string, a: Record, b: Record)
    requires Trimmed(job) && job != ""
    requires a.jobID == Some(job) && a.path == "::" + path && b.jobID == Some(job + "::") && b.path == path
    ensures IdentityKey(a) == IdentityKey(b) && a.path != b.path
  {
    OwnerIsJob(a, job);
    StillTrimmed(job);
    OwnerIsJob(b, job + "::");
    ColonsMove(job, path);
    assert |a.path| == |b.path| + 2;
  }

  lemma StillTrimmed(job: string)
    requires Trimmed(job) && job != ""
    ensures Trimmed(job + "::") && job + "::" != ""
  {
    var s := job + "::";
    assert s[0] == job[0] && s[|s| - 1] == "::"[1];
  }

  /** For job and build identifiers without a colon the listing is order free. */
  lemma OrderFreeIdentity(a: seq<Record>, b: seq<Record>)
    requires multiset(a) == multiset(b) && forall r <- a :: ':' !in OwnerID(r)
    ensures Heads(Grouped(IdentityKey, a)) == Heads(Grouped(IdentityKey, b))
  {
    forall x, y | x in a && y in a && IdentityKey(x) == IdentityKey(y) ensures x.path == y.path {
      KeyForInjective(OwnerID(x), x.path, OwnerID(y), y.path);
    }
    OrderFree(IdentityKey, a, b);
  }
}
