/** Project authorization: the check of one project, and the filter that checks many
    with a single query where the membership store offers one. */
module Authorization {
  import opened Text

  datatype Role = Owner | Maintainer | Viewer | OtherRole(text: string)

  datatype Membership = Membership(projectID: string, userID: string, role: Role)

  datatype Found = Member(membership: Membership) | NotMember | LookupFailed(error: string)

  /** The membership of a user in a project. */
  type Lookup = (string, string) -> Found

  /** The store, if configured, and its listing by user, if it has one. */
  datatype Store =
    | NotConfigured
    | PerProject(lookup: Lookup)
    | Listing(lookup: Lookup, list: string -> Result<seq<Membership>, string>)

  datatype Principal = Principal(userID: string, admin: bool)

  datatype Authorizer = Authorizer(disabled: bool, store: Store)

  datatype AuthError = Unauthenticated | Forbidden | ProjectRequired | StoreMissing | StoreFailed(error: string)

  function Rank(r: Role): int {
    match r
    case Owner => 3
    case Maintainer => 2
    case Viewer => 1
    case OtherRole(_) => 0
  }

  predicate Blank(s: string) { Trim(s) == "" }

  // ---------------------------------------------------------------------------
  // One project

  function HasRole(lookup: Lookup, user: string, project: string, minimum: Role): Result<bool, AuthError> {
    match lookup(project, user)
    case Member(m) => Ok(Rank(m.role) >= Rank(minimum))
    case NotMember => Ok(false)
    case LookupFailed(error) => Err(StoreFailed(error))
  }

  function CanAccess(a: Authorizer, p: Principal, project: string, minimum: Role): Result<bool, AuthError> {
    if a.disabled || p.admin then Ok(true)
    else if a.store.NotConfigured? then Err(StoreMissing)
    else HasRole(a.store.lookup, p.userID, project, minimum)
  }

  /** The check of one project, given which of its texts are blank. */
  function Decide(a: Authorizer, p: Principal, project: string, minimum: Role, noProject: bool, noUser: bool): Option<AuthError> {
    if a.disabled then None
    else if noProject then Some(ProjectRequired)
    else if noUser then Some(Unauthenticated)
    else
      match CanAccess(a, p, project, minimum)
      case Err(error) => Some(error)
      case Ok(allowed) => if allowed then None else Some(Forbidden)
  }

  function RequireRole(a: Authorizer, p: Principal, project: string, minimum: Role): Option<AuthError> {
    Decide(a, p, project, minimum, Blank(project), Blank(p.userID))
  }

  predicate Allowed(a: Authorizer, p: Principal, project: string, minimum: Role) {
    RequireRole(a, p, project, minimum).None?
  }

  // ---------------------------------------------------------------------------
  // Many projects

  /** The distinct trimmed identifiers that are not blank. */
  function Requested(ids: seq<string>): set<string> {
    set id | id in ids && !Blank(id) :: Trim(id)
  }

  method CollectIDs(ids: seq<string>) returns (unique: set<string>)
    ensures unique == Requested(ids)
  {
    unique := {};
    var i := 0;
    while i < |ids|
      invariant 0 <= i <= |ids| && unique == Requested(ids[..i])
    {
      RequestedMore(ids[..i], ids[i]);
      TakeMore(ids, i);
      if !Blank(ids[i]) { unique := unique + {Trim(ids[i])}; }
      i := i + 1;
    }
    TakeAll(ids);
  }

  lemma RequestedMore(ids: seq<string>, id: string)
    ensures Requested(ids + [id]) == Requested(ids) + if Blank(id) then {} else {Trim(id)}
  {
  }

  /** The listing as a lookup: the last membership listed for a project, if it is the
      user's. */
  function Cached(list: seq<Membership>): map<string, Membership> {
    if list == [] then map[] else Cached(list[..|list| - 1])[list[|list| - 1].projectID := list[|list| - 1]]
  }

  function CachedLookup(cached: map<string, Membership>): Lookup {
    (project, user) => if project in cached && cached[project].userID == user then Member(cached[project]) else NotMember
  }

  method CacheListing(list: seq<Membership>) returns (cached: map<string, Membership>)
    ensures cached == Cached(list)
  {
    cached := map[];
    var i := 0;
    while i < |list|
      invariant 0 <= i <= |list| && cached == Cached(list[..i])
    {
      AppendFront(list[..i], list[i]);
      TakeMore(list, i);
      cached := cached[list[i].projectID := list[i]];
      i := i + 1;
    }
    TakeAll(list);
  }

  /** The listing of a user and the single lookups tell the same: the user's membership
      in a project is listed, once per project, exactly when the lookup finds it. */
  ghost predicate Coherent(lookup: Lookup, list: seq<Membership>, user: string) {
    && (forall i, j :: 0 <= i < j < |list| ==> list[i].projectID != list[j].projectID)
    && (forall m <- list :: m.userID == user && lookup(m.projectID, user) == Member(m))
    && (forall project :: (forall m <- list :: m.projectID != project) ==> lookup(project, user) == NotMember)
  }

  lemma {:induction false} CachedMeaning(list: seq<Membership>, project: string)
    requires forall i, j :: 0 <= i < j < |list| ==> list[i].projectID != list[j].projectID
    ensures project in Cached(list) <==> exists m <- list :: m.projectID == project
    ensures project in Cached(list) ==> Cached(list)[project] in list && Cached(list)[project].projectID == project
    decreases |list|
  {
    if list != [] {
      FrontAndLast(list);
      CachedMeaning(list[..|list| - 1], project);
    }
  }

  /** For a coherent store the cached listing answers like the store. */
  lemma CachedAgrees(lookup: Lookup, list: seq<Membership>, user: string, project: string)
    requires Coherent(lookup, list, user)
    ensures CachedLookup(Cached(list))(project, user) == lookup(project, user)
  {
    CachedMeaning(list, project);
  }

  ghost predicate Passes(lookup: Lookup, user: string, id: string, minimum: Role) {
    HasRole(lookup, user, id, minimum) == Ok(true)
  }

  /** The role check of every requested project; the order is that of a map. */
  method FilterBy(lookup: Lookup, user: string, unique: set<string>, minimum: Role) returns (r: Result<set<string>, AuthError>)
    ensures r.Err? <==> exists id <- unique :: lookup(id, user).LookupFailed?
    ensures r.Ok? ==> forall id :: id in r.value <==> id in unique && Passes(lookup, user, id, minimum)
  {
    var allowed: set<string>, todo := {}, unique;
    while todo != {}
      invariant todo <= unique
      invariant forall id <- unique :: id in todo || !lookup(id, user).LookupFailed?
      invariant forall id :: id in allowed <==> id in unique && id !in todo && Passes(lookup, user, id, minimum)
      decreases |todo|
    {
      var id :| id in todo;
      var has := HasRole(lookup, user, id, minimum);
      if has.Err? { return Err(has.error); }
      todo := todo - {id};
      if has.value { allowed := allowed + {id}; }
    }
    return Ok(allowed);
  }

  ghost predicate StoreCoherent(a: Authorizer, p: Principal) {
    a.store.Listing? && a.store.list(p.userID).Ok? ==> Coherent(a.store.lookup, a.store.list(p.userID).value, p.userID)
  }

  /** The reasons for which a filter that has to ask the store fails. */
  ghost predicate AskingFails(store: Store, user: string, unique: set<string>) {
    || store.NotConfigured?
    || (store.Listing? && store.list(user).Err?)
    || (store.PerProject? && exists id <- unique :: store.lookup(id, user).LookupFailed?)
  }

  /** The part of the filter that asks the store, by listing where it can. */
  method FilterAsking(a: Authorizer, p: Principal, unique: set<string>, minimum: Role) returns (r: Result<set<string>, AuthError>)
    requires StoreCoherent(a, p) && !a.disabled && !p.admin
    ensures r.Err? <==> AskingFails(a.store, p.userID, unique)
    ensures r.Ok? ==> forall id :: id in r.value <==> id in unique && CanAccess(a, p, id, minimum) == Ok(true)
  {
    if a.store.NotConfigured? { return Err(StoreMissing); }
    if a.store.PerProject? {
      r := FilterBy(a.store.lookup, p.userID, unique, minimum);
    } else {
      var list := a.store.list(p.userID);
      if list.Err? { return Err(StoreFailed(list.error)); }
      var cached := CacheListing(list.value);
      forall id ensures CachedLookup(cached)(id, p.userID) == a.store.lookup(id, p.userID) {
        CachedAgrees(a.store.lookup, list.value, p.userID, id);
      }
      r := FilterBy(CachedLookup(cached), p.userID, unique, minimum);
    }
  }

  ghost predicate FilterFails(a: Authorizer, p: Principal, ids: seq<string>) {
    Requested(ids) != {} && !a.disabled && !p.admin && (Blank(p.userID) || AskingFails(a.store, p.userID, Requested(ids)))
  }

  /** What the filter keeps. */
  ghost function Kept(a: Authorizer, p: Principal, ids: seq<string>, minimum: Role): set<string> {
    if a.disabled || p.admin then Requested(ids)
    else set id | id in Requested(ids) && CanAccess(a, p, id, minimum) == Ok(true)
  }

  /** The requested projects that the single check allows. */
  ghost function AllowedOnes(a: Authorizer, p: Principal, ids: seq<string>, minimum: Role): set<string> {
    set id | id in Requested(ids) && Allowed(a, p, id, minimum)
  }

  /** The filter agrees with the single check on every request it answers, except for an
      administrator without a user identifier who requests anything while authorization
      is on. */
  lemma FilterAgreesExactly(a: Authorizer, p: Principal, ids: seq<string>, minimum: Role)
    requires !FilterFails(a, p, ids)
    ensures Kept(a, p, ids, minimum) == AllowedOnes(a, p, ids, minimum) <==>
            !(p.admin && !a.disabled && Blank(p.userID) && Requested(ids) != {})
  {
    var noUser := Blank(p.userID);
    forall id | id in Requested(ids)
      ensures Allowed(a, p, id, minimum) <==> a.disabled || (!noUser && CanAccess(a, p, id, minimum) == Ok(true))
    {
      RequestedNotBlank(ids, id);
      DecideCases(a, p, id, minimum, noUser);
    }
    AgreeCases(a, p, Requested(ids), Kept(a, p, ids, minimum), AllowedOnes(a, p, ids, minimum), minimum, noUser);
  }

  lemma DecideCases(a: Authorizer, p: Principal, id: string, minimum: Role, noUser: bool)
    ensures Decide(a, p, id, minimum, false, noUser).None? <==>
            a.disabled || (!noUser && CanAccess(a, p, id, minimum) == Ok(true))
  {
  }

  lemma AgreeCases(a: Authorizer, p: Principal, requested: set<string>, kept: set<string>, allowed: set<string>, minimum: Role, noUser: bool)
    requires forall id :: id in kept <==> id in requested && (a.disabled || p.admin || CanAccess(a, p, id, minimum) == Ok(true))
    requires forall id :: id in allowed <==> id in requested && (a.disabled || (!noUser && CanAccess(a, p, id, minimum) == Ok(true)))
    requires requested == {} || a.disabled || p.admin || !noUser
    ensures kept == allowed <==> !(p.admin && !a.disabled && noUser && requested != {})
  {
    if p.admin && !a.disabled && noUser && requested != {} {
      var id :| id in requested;
      assert id in kept && id !in allowed;
    } else {
      assert forall id :: id in kept <==> id in allowed;
    }
  }

  /** `FilterProjectIDs`, with or without the listing. */
  method FilterProjectIDs(a: Authorizer, p: Principal, ids: seq<string>, minimum: Role) returns (r: Result<set<string>, AuthError>)
    requires StoreCoherent(a, p)
    ensures r.Err? <==> FilterFails(a, p, ids)
    ensures r.Ok? ==> r.value == Kept(a, p, ids, minimum)
    ensures r.Ok? && !Blank(p.userID) ==> r.value == AllowedOnes(a, p, ids, minimum)
  {
    var unique := CollectIDs(ids);
    var blank := Blank(p.userID);
    if unique == {} || a.disabled || p.admin {
      r := Ok(unique);
      assert unique == {} ==> Kept(a, p, ids, minimum) == {};
    } else if blank {
      r := Err(Unauthenticated);
    } else {
      r := FilterAsking(a, p, unique, minimum);
    }
    if r.Ok? { FilterAgreesExactly(a, p, ids, minimum); }
  }

  lemma RequestedNotBlank(ids: seq<string>, id: string)
    requires id in Requested(ids)
    ensures !Blank(id)
  {
    var x :| x in ids && !Blank(x) && Trim(x) == id;
    TrimIdempotent(x);
  }

  /** A higher minimum role never allows more. */
  lemma HigherRoleAllowsLess(a: Authorizer, p: Principal, id: string, low: Role, high: Role)
    requires Rank(low) <= Rank(high) && Allowed(a, p, id, high)
    ensures Allowed(a, p, id, low)
  {
    DecideLess(a, p, id, low, high, Blank(id), Blank(p.userID));
  }

  lemma DecideLess(a: Authorizer, p: Principal, id: string, low: Role, high: Role, noProject: bool, noUser: bool)
    requires Rank(low) <= Rank(high)
    ensures Decide(a, p, id, high, noProject, noUser).None? ==> Decide(a, p, id, low, noProject, noUser).None?
  {
  }

  /** For an administrator without a user identifier the filter keeps a project that the
      single check refuses. */
  lemma BlankAdminDiffers(a: Authorizer, p: Principal, project: string, minimum: Role)
    requires !a.disabled && p.admin && Blank(p.userID) && !Blank(project)
    ensures !FilterFails(a, p, [project]) && Trim(project) in Kept(a, p, [project], minimum)
    ensures RequireRole(a, p, Trim(project), minimum) == Some(Unauthenticated)
  {
    assert project in [project];
    TrimIdempotent(project);
    assert Trim(project) in Requested([project]);
  }
}
