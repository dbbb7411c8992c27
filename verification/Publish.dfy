/** The cache helper of a build pod: the restore run prepares a key per component and
    writes them down, the save run publishes the components under those keys. Every
    effect on the cache service is recorded in a trace. */
module Publish {
  import opened Text

  datatype Component = Component(name: string, dimensions: seq<string>)

  datatype Policy = Off | Pull | Push | PullPush

  predicate AllowsRestore(p: Policy) { !p.Off? && !p.Push? }

  predicate AllowsSave(p: Policy) { !p.Off? && !p.Pull? }

  /** The environment both runs share, its texts trimmed as they are read. */
  datatype Config = Config(policy: Policy, overrides: map<string, Policy>, split: bool, image: string)

  function PolicyOf(c: Config, name: string): Policy {
    if name in c.overrides then c.overrides[name] else c.policy
  }

  predicate AnySaves(c: Config, components: seq<Component>) {
    exists k :: 0 <= k < |components| && AllowsSave(PolicyOf(c, components[k].name))
  }

  predicate AnyRestores(c: Config, components: seq<Component>) {
    exists k :: 0 <= k < |components| && AllowsRestore(PolicyOf(c, components[k].name))
  }

  // ---------------------------------------------------------------------------
  // Keys

  const GO_BUILD := "go-build"

  /** The workspace as the key computation sees it: the fingerprint of a component, if
      it can be computed. */
  type Workspace = Component -> Option<string>

  type Hash = string -> string

  /** The key of one component, if it has one. */
  function KeyOf(c: Config, w: Workspace, hash: Hash, component: Component): Option<string> {
    if w(component).None? then None
    else if !c.split then Some(component.name + ":" + w(component).value)
    else if component.name == GO_BUILD && c.image == "" then None
    else
      var dimensions := component.dimensions + if component.name == GO_BUILD then [c.image] else [];
      Some(component.name + ":" + hash(w(component).value + "\n" + Join(dimensions, '\n')))
  }

  /** The map holds the key of every component; of two with one name the later counts. */
  ghost predicate HoldsKeys(keys: map<string, string>, c: Config, w: Workspace, hash: Hash, components: seq<Component>) {
    && (forall d <- components :: d.name in keys && KeyOf(c, w, hash, d).Some?)
    && forall name <- keys :: keys[name] != "" && exists d <- components :: d.name == name && KeyOf(c, w, hash, d) == Some(keys[name])
  }

  /** `cacheKeysForHelper`: all components get a key, or the computation fails. */
  method PrepareKeys(c: Config, w: Workspace, hash: Hash, components: seq<Component>) returns (keys: Option<map<string, string>>)
    requires !c.split ==> |components| == 1
    ensures keys.Some? <==> forall d <- components :: KeyOf(c, w, hash, d).Some?
    ensures keys.Some? ==> HoldsKeys(keys.value, c, w, hash, components) && (components != [] ==> keys.value != map[])
  {
    var filled: map<string, string> := map[];
    var i := 0;
    while i < |components|
      invariant 0 <= i <= |components| && (i > 0 ==> filled != map[])
      invariant HoldsKeys(filled, c, w, hash, components[..i])
    {
      var component := components[i];
      var key := KeyOf(c, w, hash, component);
      if key.None? {
        assert component in components;
        return None;
      }
      TakeMore(components, i);
      HoldsMore(filled, c, w, hash, components[..i], component);
      filled := filled[component.name := key.value];
      i := i + 1;
    }
    TakeAll(components);
    return Some(filled);
  }

  lemma HoldsMore(keys: map<string, string>, c: Config, w: Workspace, hash: Hash, components: seq<Component>, d: Component)
    requires HoldsKeys(keys, c, w, hash, components) && KeyOf(c, w, hash, d).Some?
    ensures HoldsKeys(keys[d.name := KeyOf(c, w, hash, d).value], c, w, hash, components + [d])
  {
    var key := KeyOf(c, w, hash, d).value;
    var more := keys[d.name := key];
    assert d in components + [d];
    assert forall e <- components :: e in components + [d];
    forall name | name in more
      ensures more[name] != "" && exists e <- components + [d] :: e.name == name && KeyOf(c, w, hash, e) == Some(more[name])
    {
      if name == d.name {
        assert |key| >= 1;
      } else {
        var e :| e in components && e.name == name && KeyOf(c, w, hash, e) == Some(keys[name]);
        assert e in components + [d];
      }
    }
  }

  // ---------------------------------------------------------------------------
  // Effects

  datatype Effect =
    | ClaimFailed(name: string, key: string)
    | Denied(name: string, key: string)
    | Claimed(name: string, key: string, token: string)
    | Archived(name: string)
    | Uploaded(name: string, key: string, token: string)
    | Completed(name: string, key: string, token: string)
    | Released(name: string, key: string, token: string)

  /** The service's reply to a claim; a token of white space only is a blank one. */
  datatype ClaimReply = NoAnswer | Refused | Acquired(token: string) | BlankToken | NotAcquired | UnknownOutcome

  /** What the outside world does while one component is saved. */
  datatype Answers = Answers(claim: ClaimReply, archives: bool, requests: bool, uploads: bool)

  /** The claim a reply gives: none is not an error, a blank token is. */
  function ReadClaim(reply: ClaimReply): Result<Option<string>, ()> {
    match reply
    case Acquired(token) => Ok(Some(token))
    case NotAcquired => Ok(None)
    case _ => Err(())
  }

  predicate Succeeds(a: Answers) {
    var claim := ReadClaim(a.claim);
    claim.Ok? && (claim.value.None? || (a.archives && a.requests && a.uploads))
  }

  /** The effects of saving one component. */
  function SaveEffects(name: string, key: string, a: Answers): seq<Effect> {
    match ReadClaim(a.claim)
    case Err(_) => [ClaimFailed(name, key)]
    case Ok(None) => [Denied(name, key)]
    case Ok(Some(token)) =>
      [Claimed(name, key, token), Archived(name)]
      + (if a.archives && a.requests then [Uploaded(name, key, token)] else [])
      + (if a.archives && a.requests && a.uploads then [Completed(name, key, token)] else [Released(name, key, token)])
  }

  function KeyFor(keys: map<string, string>, name: string): string { if name in keys then keys[name] else "" }

  /** The effects of saving components one after the other, up to the first failure. */
  function AllEffects(c: Config, keys: map<string, string>, components: seq<Component>, answers: nat -> Answers, i: nat): seq<Effect>
    requires i <= |components|
    decreases |components| - i
  {
    if i == |components| then []
    else
      var name := components[i].name;
      if !AllowsSave(PolicyOf(c, name)) then AllEffects(c, keys, components, answers, i + 1)
      else
        SaveEffects(name, KeyFor(keys, name), answers(i))
        + if Succeeds(answers(i)) then AllEffects(c, keys, components, answers, i + 1) else []
  }

  // ---------------------------------------------------------------------------
  // The helper

  /** The file of prepared keys. */
  datatype KeyFile = Absent | Garbled | Stored(keys: map<string, string>)

  datatype WriteOutcome = Written | NotWritten | Torn

  /** `loadPreparedCacheKeys`, with the single-key file of older helpers, its
      text trimmed, as fallback. */
  function LoadKeys(file: KeyFile, legacy: Option<string>): Option<map<string, string>> {
    match file
    case Absent => if legacy.None? then None else Some(map["go" := legacy.value])
    case Garbled => None
    case Stored(keys) => if keys == map[] then None else Some(keys)
  }

  class CacheHelper {
    var file: KeyFile
    var legacy: Option<string>
    var trace: seq<Effect>

    constructor (legacy: Option<string>)
      ensures file == Absent && this.legacy == legacy && trace == []
    {
      file, this.legacy, trace := Absent, legacy, [];
    }

    /** The restore run, as far as the prepared keys go. They are written before any
        transfer, and only when some component restores or saves. */
    method RunCacheRestore(c: Config, w: Workspace, hash: Hash, components: seq<Component>, write: WriteOutcome) returns (ok: bool)
      requires !c.split ==> |components| == 1
      modifies this`file
      ensures file != old(file) && file.Stored? ==> HoldsKeys(file.keys, c, w, hash, components)
      ensures (AnyRestores(c, components) || AnySaves(c, components)) && (forall d <- components :: KeyOf(c, w, hash, d).Some?)
              && write.Written? ==>
                file.Stored? && file.keys != map[] && HoldsKeys(file.keys, c, w, hash, components)
      ensures file != old(file) ==> (AnyRestores(c, components) || AnySaves(c, components)) && !write.NotWritten?
    {
      ok := true;
      var canRestore, canSave := Allowed(c, components);
      if !canRestore && !canSave { return; }
      var keys := PrepareKeys(c, w, hash, components);
      if keys.None? { return; }
      match write {
        case Written => file := Stored(keys.value);
        case NotWritten => ok := false;
        case Torn =>
          file := Garbled;
          ok := false;
      }
    }

    /** The save run: it publishes under the loaded keys, component by component. */
    method RunCacheSave(c: Config, components: seq<Component>, ready: bool, answers: nat -> Answers)
      modifies this`trace
      ensures trace == old(trace) +
                if AnySaves(c, components) && LoadKeys(file, legacy).Some? && ready
                then AllEffects(c, LoadKeys(file, legacy).value, components, answers, 0) else []
    {
      var _, canSave := Allowed(c, components);
      if !canSave { return; }
      var loaded := LoadKeys(file, legacy);
      if loaded.None? || !ready { return; }
      var i := 0;
      while i < |components|
        invariant 0 <= i <= |components|
        invariant old(trace) + AllEffects(c, loaded.value, components, answers, 0) ==
                  trace + AllEffects(c, loaded.value, components, answers, i)
      {
        var name := components[i].name;
        if AllowsSave(PolicyOf(c, name)) {
          ghost var before, rest := trace, AllEffects(c, loaded.value, components, answers, i + 1);
          var ok := SaveComponent(name, KeyFor(loaded.value, name), answers(i));
          if !ok { return; }
          ConcatAssoc(before, SaveEffects(name, KeyFor(loaded.value, name), answers(i)), rest);
        }
        i := i + 1;
      }
    }

    /** `saveCacheComponent`: whatever happens after the claim, the deferred release runs
        unless the upload completed. */
    method SaveComponent(name: string, key: string, a: Answers) returns (ok: bool)
      modifies this`trace
      ensures trace == old(trace) + SaveEffects(name, key, a) && ok == Succeeds(a)
    {
      var claim := ReadClaim(a.claim);
      if claim.Err? {
        trace := trace + [ClaimFailed(name, key)];
        return false;
      }
      if claim.value.None? {
        trace := trace + [Denied(name, key)];
        return true;
      }
      var token := claim.value.value;
      var completed := false;
      trace := trace + [Claimed(name, key, token)];
      trace := trace + [Archived(name)];
      if a.archives && a.requests {
        trace := trace + [Uploaded(name, key, token)];
        completed := a.uploads;
      }
      trace := trace + [if completed then Completed(name, key, token) else Released(name, key, token)];
      ok := completed;
    }
  }

  method Allowed(c: Config, components: seq<Component>) returns (canRestore: bool, canSave: bool)
    ensures canRestore == AnyRestores(c, components) && canSave == AnySaves(c, components)
  {
    canRestore, canSave := false, false;
    var i := 0;
    while i < |components|
      invariant 0 <= i <= |components|
      invariant canRestore == exists k :: 0 <= k < i && AllowsRestore(PolicyOf(c, components[k].name))
      invariant canSave == exists k :: 0 <= k < i && AllowsSave(PolicyOf(c, components[k].name))
    {
      var policy := PolicyOf(c, components[i].name);
      canRestore := canRestore || AllowsRestore(policy);
      canSave := canSave || AllowsSave(policy);
      i := i + 1;
    }
  }

  // ---------------------------------------------------------------------------
  // Claims in a trace

  /** The claim that is open, if any. */
  datatype Phase = Idle | Open(name: string, key: string, token: string, archived: bool, uploaded: bool) | Broken

  /** The discipline: one claim at a time, work only under it, and one end to it with
      the same name, key and token. */
  function Follow(p: Phase, e: Effect): Phase {
    match p
    case Idle =>
      if e.ClaimFailed? || e.Denied? then Idle
      else if e.Claimed? then Open(e.name, e.key, e.token, false, false)
      else Broken
    case Open(name, key, token, archived, uploaded) =>
      if e == Archived(name) && !archived then p.(archived := true)
      else if e == Uploaded(name, key, token) && archived && !uploaded then p.(uploaded := true)
      else if e == Completed(name, key, token) && uploaded then Idle
      else if e == Released(name, key, token) then Idle
      else Broken
    case Broken => Broken
  }

  function FollowAll(p: Phase, trace: seq<Effect>): Phase
    decreases |trace|
  {
    if trace == [] then p else FollowAll(Follow(p, trace[0]), trace[1..])
  }

  lemma {:induction false} FollowConcat(p: Phase, a: seq<Effect>, b: seq<Effect>)
    ensures FollowAll(p, a + b) == FollowAll(FollowAll(p, a), b)
    decreases |a|
  {
    if a == [] {
      assert a + b == b;
    } else {
      assert (a + b)[1..] == a[1..] + b;
      FollowConcat(Follow(p, a[0]), a[1..], b);
    }
  }

  lemma FollowOne(p: Phase, e: Effect)
    ensures FollowAll(p, [e]) == Follow(p, e)
  {
    assert [e][1..] == [];
  }

  lemma FollowMore(p: Phase, trace: seq<Effect>, e: Effect)
    ensures FollowAll(p, trace + [e]) == Follow(FollowAll(p, trace), e)
  {
    FollowConcat(p, trace, [e]);
    FollowOne(FollowAll(p, trace), e);
  }

  /** Saving a component opens at most one claim and always ends it. */
  lemma ComponentSettles(name: string, key: string, a: Answers)
    ensures FollowAll(Idle, SaveEffects(name, key, a)) == Idle
  {
    match ReadClaim(a.claim)
    case Err(_) => FollowOne(Idle, ClaimFailed(name, key));
    case Ok(None) => FollowOne(Idle, Denied(name, key));
    case Ok(Some(token)) => ClaimSettles(name, key, a, token);
  }

  lemma ClaimSettles(name: string, key: string, a: Answers, token: string)
    requires ReadClaim(a.claim) == Ok(Some(token))
    ensures FollowAll(Idle, SaveEffects(name, key, a)) == Idle
  {
    var start := [Claimed(name, key, token)] + [Archived(name)];
    FollowOne(Idle, Claimed(name, key, token));
    FollowMore(Idle, [Claimed(name, key, token)], Archived(name));
    if a.archives && a.requests {
      var sent := start + [Uploaded(name, key, token)];
      FollowMore(Idle, start, Uploaded(name, key, token));
      var end := if a.uploads then Completed(name, key, token) else Released(name, key, token);
      FollowMore(Idle, sent, end);
      assert SaveEffects(name, key, a) == sent + [end];
    } else {
      FollowMore(Idle, start, Released(name, key, token));
      assert SaveEffects(name, key, a) == start + [Released(name, key, token)];
    }
  }

  /** For any components and any failures, the trace of a save run keeps the discipline
      and leaves no claim open. */
  lemma {:induction false} SaveRunSettles(c: Config, keys: map<string, string>, components: seq<Component>, answers: nat -> Answers, i: nat)
    requires i <= |components|
    ensures FollowAll(Idle, AllEffects(c, keys, components, answers, i)) == Idle
    decreases |components| - i
  {
    if i < |components| {
      var name := components[i].name;
      SaveRunSettles(c, keys, components, answers, i + 1);
      if AllowsSave(PolicyOf(c, name)) {
        var effects := SaveEffects(name, KeyFor(keys, name), answers(i));
        ComponentSettles(name, KeyFor(keys, name), answers(i));
        FollowConcat(Idle, effects, AllEffects(c, keys, components, answers, i + 1));
        assert effects + [] == effects;
      }
    }
  }

  lemma {:induction false} BrokenStays(trace: seq<Effect>)
    ensures FollowAll(Broken, trace) == Broken
  {
    if trace != [] { BrokenStays(trace[1..]); }
  }

  /** What the discipline means for work: an upload anywhere in a settled trace is under
      the claim most recently acquired, with its token, and that claim ends later on. */
  lemma UploadUnderClaim(trace: seq<Effect>, i: nat)
    requires FollowAll(Idle, trace) == Idle && i < |trace| && trace[i].Uploaded?
    ensures var p := FollowAll(Idle, trace[..i]);
            p.Open? && Uploaded(p.name, p.key, p.token) == trace[i] && FollowAll(p, trace[i..]) == Idle
  {
    assert trace == trace[..i] + trace[i..];
    FollowConcat(Idle, trace[..i], trace[i..]);
    var p := FollowAll(Idle, trace[..i]);
    BrokenStays(trace[i..][1..]);
  }

  /** The same for the archiving of a component: nothing is archived without an open claim
      for that component, and the claim ends later on. */
  lemma ArchiveUnderClaim(trace: seq<Effect>, i: nat)
    requires FollowAll(Idle, trace) == Idle && i < |trace| && trace[i].Archived?
    ensures var p := FollowAll(Idle, trace[..i]);
            p.Open? && p.name == trace[i].name && FollowAll(p, trace[i..]) == Idle
  {
    assert trace == trace[..i] + trace[i..];
    FollowConcat(Idle, trace[..i], trace[i..]);
    BrokenStays(trace[i..][1..]);
  }

  /** An open phase was opened by a claim in the trace. */
  lemma {:induction false} OpenedByClaim(trace: seq<Effect>) returns (j: nat)
    requires FollowAll(Idle, trace).Open?
    ensures var p := FollowAll(Idle, trace);
            && j < |trace| && trace[j] == Claimed(p.name, p.key, p.token)
            && forall k :: j < k < |trace| ==> trace[k] == Archived(p.name) || trace[k] == Uploaded(p.name, p.key, p.token)
  {
    var front, last := trace[..|trace| - 1], trace[|trace| - 1];
    FrontAndLast(trace);
    FollowMore(Idle, front, last);
    if FollowAll(Idle, front).Open? {
      j := OpenedByClaim(front);
    } else {
      j := |trace| - 1;
    }
  }

  // ---------------------------------------------------------------------------
  // Keys in a trace

  predicate CarriesKey(e: Effect, keys: map<string, string>) {
    e.Archived? || (e.name in keys && e.key == keys[e.name])
  }

  lemma {:induction false} EffectsCarryKeys(c: Config, keys: map<string, string>, components: seq<Component>, answers: nat -> Answers, i: nat)
    requires i <= |components| && forall d <- components :: d.name in keys
    ensures forall e <- AllEffects(c, keys, components, answers, i) :: CarriesKey(e, keys)
    decreases |components| - i
  {
    if i < |components| {
      EffectsCarryKeys(c, keys, components, answers, i + 1);
      assert components[i] in components;
    }
  }

  /** After a restore run that wrote its keys, every claim, upload, completion and release
      of the save run carries the key that the restore run computed from its workspace
      for that component, and it is not empty. The save run does not look at the
      workspace. */
  lemma SavedUnderPreparedKeys(
    c: Config, w: Workspace, hash: Hash, components: seq<Component>, keys: map<string, string>, legacy: Option<string>,
    answers: nat -> Answers, e: Effect)
    requires HoldsKeys(keys, c, w, hash, components) && keys != map[]
    ensures LoadKeys(Stored(keys), legacy) == Some(keys)
    ensures e in AllEffects(c, keys, components, answers, 0) && !e.Archived? ==>
              e.key != "" && exists d <- components :: d.name == e.name && KeyOf(c, w, hash, d) == Some(e.key)
  {
    EffectsCarryKeys(c, keys, components, answers, 0);
  }

  /** Every effect that carries a key carries one that is not empty. */
  predicate Keyed(e: Effect) { e.Archived? || e.key != "" }

  lemma {:induction false} EffectsKeyed(c: Config, keys: map<string, string>, components: seq<Component>, answers: nat -> Answers, i: nat)
    requires i <= |components|
    requires forall d <- components :: AllowsSave(PolicyOf(c, d.name)) ==> KeyFor(keys, d.name) != ""
    ensures forall e <- AllEffects(c, keys, components, answers, i) :: Keyed(e)
    decreases |components| - i
  {
    if i < |components| {
      EffectsKeyed(c, keys, components, answers, i + 1);
      var name := components[i].name;
      assert components[i] in components;
      if AllowsSave(PolicyOf(c, name)) {
        forall e | e in SaveEffects(name, KeyFor(keys, name), answers(i)) ensures Keyed(e) {
          assert e.Archived? || e.key == KeyFor(keys, name);
        }
      }
    }
  }

  /** When nothing fails, every component that saves is claimed. */
  lemma {:induction false} ClaimReached(
    c: Config, keys: map<string, string>, components: seq<Component>, answers: nat -> Answers, token: string, i: nat, k: nat)
    requires i <= k < |components| && AllowsSave(PolicyOf(c, components[k].name))
    requires forall j: nat :: answers(j) == Answers(Acquired(token), true, true, true)
    ensures var name := components[k].name;
            Claimed(name, KeyFor(keys, name), token) in AllEffects(c, keys, components, answers, i)
    decreases k - i
  {
    FirstThenRest(c, keys, components, answers, token, i);
    if i == k {
      ClaimMade(components[k].name, KeyFor(keys, components[k].name), answers(k), token);
    } else {
      ClaimReached(c, keys, components, answers, token, i + 1, k);
    }
  }

  lemma ClaimMade(name: string, key: string, a: Answers, token: string)
    requires a.claim == Acquired(token)
    ensures Claimed(name, key, token) in SaveEffects(name, key, a)
  {
    assert SaveEffects(name, key, a)[0] == Claimed(name, key, token);
  }

  /** The effects of the component at `i`, if it saves. */
  function EffectsAt(c: Config, keys: map<string, string>, components: seq<Component>, answers: nat -> Answers, i: nat): seq<Effect>
    requires i < |components|
  {
    var name := components[i].name;
    if AllowsSave(PolicyOf(c, name)) then SaveEffects(name, KeyFor(keys, name), answers(i)) else []
  }

  lemma FirstThenRest(
    c: Config, keys: map<string, string>, components: seq<Component>, answers: nat -> Answers, token: string, i: nat)
    requires i < |components| && answers(i) == Answers(Acquired(token), true, true, true)
    ensures forall e :: e in AllEffects(c, keys, components, answers, i) <==>
              e in EffectsAt(c, keys, components, answers, i) || e in AllEffects(c, keys, components, answers, i + 1)
  {
    assert Succeeds(answers(i));
  }

  ghost predicate AlwaysKeyed(c: Config, keys: map<string, string>, components: seq<Component>) {
    forall answers: nat -> Answers, e :: e in AllEffects(c, keys, components, answers, 0) ==> Keyed(e)
  }

  /** Whatever happens outside, a save run under these keys never claims, uploads or
      releases without a key, exactly when every component that saves has one. */
  lemma KeyedExactly(c: Config, keys: map<string, string>, components: seq<Component>)
    ensures AlwaysKeyed(c, keys, components) <==>
            forall d <- components :: AllowsSave(PolicyOf(c, d.name)) ==> KeyFor(keys, d.name) != ""
  {
    if forall d <- components :: AllowsSave(PolicyOf(c, d.name)) ==> KeyFor(keys, d.name) != "" {
      forall answers: nat -> Answers, e | e in AllEffects(c, keys, components, answers, 0) ensures Keyed(e) {
        EffectsKeyed(c, keys, components, answers, 0);
      }
    }
    if AlwaysKeyed(c, keys, components) {
      forall d | d in components && AllowsSave(PolicyOf(c, d.name)) ensures KeyFor(keys, d.name) != "" {
        var k :| 0 <= k < |components| && components[k] == d;
        var answers: nat -> Answers := _ => Answers(Acquired("t"), true, true, true);
        ClaimReached(c, keys, components, answers, "t", 0, k);
        assert Keyed(Claimed(d.name, KeyFor(keys, d.name), "t"));
      }
    }
  }

  /** Without the file of prepared keys, the single-key file of an older helper serves a
      save run exactly when it holds a key and no other component than `go` saves. */
  lemma LegacyFileKeyedExactly(c: Config, components: seq<Component>, legacy: string)
    ensures LoadKeys(Absent, Some(legacy)).Some?
    ensures AlwaysKeyed(c, LoadKeys(Absent, Some(legacy)).value, components) <==>
            forall d <- components :: AllowsSave(PolicyOf(c, d.name)) ==> d.name == "go" && legacy != ""
  {
    var keys := LoadKeys(Absent, Some(legacy)).value;
    KeyedExactly(c, keys, components);
    forall d | d in components ensures KeyFor(keys, d.name) != "" <==> d.name == "go" && legacy != "" {
    }
  }

  /** So a component of another name is claimed without a key. */
  lemma LegacyFileLosesKeys(c: Config, components: seq<Component>, legacy: string, d: Component)
    requires d in components && d.name != "go" && AllowsSave(PolicyOf(c, d.name))
    ensures LoadKeys(Absent, Some(legacy)).Some?
    ensures !AlwaysKeyed(c, LoadKeys(Absent, Some(legacy)).value, components)
  {
    LegacyFileKeyedExactly(c, components, legacy);
  }
}
