/** Commit status deliveries: what is stored for one status stream of a commit, which
    build may write to it, and what holds over every sequence of repository operations. */
module CommitStatuses {
  import opened Text
  import opened Attempts

  datatype StateWord = Waiting | Success | Failure | Error | OtherState(text: string)

  function ReadState(s: string): StateWord {
    if s == "pending" then Waiting
    else if s == "success" then Success
    else if s == "failure" then Failure
    else if s == "error" then Error
    else OtherState(s)
  }

  function WriteState(w: StateWord): string {
    match w
    case Waiting => "pending"
    case Success => "success"
    case Failure => "failure"
    case Error => "error"
    case OtherState(text) => text
  }

  lemma StateWordsFaithful()
    ensures Faithful(Vocabulary(ReadState, WriteState))
  {
    forall s: string ensures WriteState(ReadState(s)) == s { }
  }

  datatype Build = Build(id: Field, attempt: int, createdAt: int)

  datatype Target = Target(
    provider: Field, owner: Field, name: Field,
    registeredID: Option<Field>, connectionID: Option<Field>, repositoryID: Option<Field>,
    commit: Field, context: Field)

  datatype Delivery = Delivery(
    build: Build, target: Target, desired: Label<StateWord>, lastSent: Option<Label<StateWord>>,
    description: Field, detailsURL: Option<Field>, supersededAt: Option<int>, progress: Progress)

  // ---------------------------------------------------------------------------
  // Normal form and validity

  function LowerField(f: Field): Field { Label(ToLower(f.word), true) }

  function NormalState(s: Option<Label<StateWord>>): Option<Label<StateWord>> {
    if s.None? || s.value.word == OtherState("") then None else Some(Bare(s.value))
  }

  function NormalBuild(b: Build): Build { b.(id := Bare(b.id)) }

  function NormalTarget(t: Target): Target {
    Target(
      LowerField(t.provider), Bare(t.owner), Bare(t.name),
      TrimOptional(t.registeredID), TrimOptional(t.connectionID), TrimOptional(t.repositoryID),
      Bare(t.commit), Bare(t.context))
  }

  function Normalize(d: Delivery): Delivery {
    Delivery(
      NormalBuild(d.build), NormalTarget(d.target), Bare(d.desired), NormalState(d.lastSent),
      Bare(d.description), TrimOptional(d.detailsURL), NormalTime(d.supersededAt), NormalProgress(d.progress, 1))
  }

  predicate Empty(f: Field) { Is(f, "") }

  predicate BlankPresent(f: Option<Field>) { f.Some? && f.value.word == "" }

  predicate BlankSnapshot(t: Target) {
    BlankPresent(t.registeredID) || BlankPresent(t.connectionID) || BlankPresent(t.repositoryID)
  }

  /** The three repository identifiers are given together or not at all. */
  predicate SnapshotOk(t: Target) {
    && !BlankSnapshot(t)
    && (t.registeredID.Some? == t.connectionID.Some? == t.repositoryID.Some?)
  }

  predicate KnownState(s: Label<StateWord>) { s.bare && !s.word.OtherState? }

  predicate TargetOk(t: Target) {
    && !Empty(t.provider) && !Empty(t.owner) && !Empty(t.name) && SnapshotOk(t) && !Empty(t.commit) && !Empty(t.context)
  }

  predicate BuildOk(b: Build) { !Empty(b.id) && b.attempt >= 0 && b.createdAt != ZERO_TIME }

  predicate ValidIdentity(d: Delivery) { BuildOk(d.build) && TargetOk(d.target) && KnownState(d.desired) }

  /** The rules of `Validate` on a normalised delivery, beside its identity. */
  predicate StateRules(d: Delivery) {
    && SharedRules(d.progress) && KnownStatus(d.progress)
    && (d.lastSent.Some? ==> KnownState(d.lastSent.value))
    && (Is(d.progress.status, Sent) ==> d.lastSent == Some(d.desired))
    && (Is(d.progress.status, Superseded) ==> d.supersededAt.Some?)
  }

  predicate Valid(d: Delivery) {
    ValidIdentity(d) && ValidIdentity(Normalize(d)) && StateRules(Normalize(d))
  }

  lemma LowerFieldIdempotent(f: Field)
    ensures LowerField(LowerField(f)) == LowerField(f)
  {
    assert ToLower(ToLower(f.word)) == ToLower(f.word);
  }

  lemma LowerFixpoint(t: string)
    requires Trimmed(t)
    ensures Trim(ToLower(t)) == ToLower(t)
  {
    LowerTrimmed(t);
    TrimFixpoint(ToLower(t));
  }

  /** Seen as fields, strings are trimmed and lower-cased by `LowerField`. */
  lemma FieldsLower(s: string)
    ensures FieldOf(ToLower(Trim(s))) == LowerField(FieldOf(s))
  {
    TrimEnds(s);
    LowerFixpoint(Trim(s));
  }

  lemma NormalizeIdempotent(d: Delivery)
    ensures Normalize(Normalize(d)) == Normalize(d)
  {
    LowerFieldIdempotent(d.target.provider);
    NormalProgressIdempotent(d.progress, 1);
  }

  /** Validity passes to the normal form; back it passes exactly when the desired state
      is trimmed and none of the repository identifiers is present but blank. */
  lemma ValidNormalForm(d: Delivery)
    ensures Valid(d) ==> Valid(Normalize(d))
    ensures Valid(Normalize(d)) ==> (Valid(d) <==> d.desired.bare && !BlankSnapshot(d.target))
  {
    NormalizeIdempotent(d);
    assert |ToLower(d.target.provider.word)| == |d.target.provider.word|;
  }

  /** A padded state makes a delivery invalid although its normal form is valid. */
  lemma PaddedStateInvalid(d: Delivery)
    requires Valid(d)
    ensures var padded := d.(desired := d.desired.(bare := false));
            !Valid(padded) && Valid(Normalize(padded))
  {
    var padded := d.(desired := d.desired.(bare := false));
    assert Normalize(padded) == Normalize(d);
    ValidNormalForm(d);
  }

  // ---------------------------------------------------------------------------
  // Which build owns a stream

  /** `CompareSCMStatusDeliveryOwners`: positive when the stored build is the newer. */
  function CompareOwners(existing: Build, incoming: Build): int {
    if existing.id.word == incoming.id.word then 0
    else if existing.attempt != incoming.attempt then if existing.attempt > incoming.attempt then 1 else -1
    else if existing.createdAt > incoming.createdAt then 1
    else if existing.createdAt < incoming.createdAt then -1
    else if StringLess(incoming.id.word, existing.id.word) then 1 else -1
  }

  predicate FinalState(s: Label<StateWord>) { Is(s, Success) || Is(s, Failure) || Is(s, Error) }

  predicate Obsolete(existing: Delivery, incoming: Delivery) {
    || (FinalState(existing.desired) && !FinalState(incoming.desired))
    || (existing.lastSent.Some? && FinalState(existing.lastSent.value) && !FinalState(incoming.desired))
  }

  // ---------------------------------------------------------------------------
  // Repository operations on one stream

  datatype Op =
    | Acquire(delivery: Delivery, owner: Field, now: int, duration: int, maxAttempts: int)
    | MarkSent(owner: Field, claimedAt: int, sentAt: int, state: Label<StateWord>)
    | RecordFailure(failure: Failure, owner: Field, claimedAt: int, nextAttemptAt: Option<int>,
                    category: Label<CategoryWord>, reason: Field, lastError: Option<Field>)
    | MarkSuperseded(claimOwner: Option<Field>, claimTime: Option<int>, at: int, reason: Field, lastError: Option<Field>)

  /** The answer; a replaced claim that is still live is to be reasserted when it expires. */
  datatype Reply = Acquired(outcome: ClaimOutcome, reassertAfter: Option<int>) | Updated | LostClaim | NotFound | Rejected

  function Store(was: Option<Delivery>, changed: Delivery, reply: Reply): (Option<Delivery>, Reply) {
    if Valid(changed) then (Some(changed), reply) else (was, Rejected)
  }

  /** `claimFreshSCMStatusDelivery`: the incoming state starts over with a first claim. */
  function Fresh(incoming: Delivery, op: Op, lastSent: Option<Label<StateWord>>): Delivery
    requires op.Acquire?
  {
    incoming.(lastSent := lastSent, supersededAt := None,
              progress := FirstClaim(incoming.progress, op.now, Bare(op.owner), op.duration, op.maxAttempts))
  }

  /** The delivery is being sent under a claim that has not expired. */
  predicate LiveAt(p: Progress, now: int) {
    Is(p.status, Sending) && p.claimExpiresAt.Some? && p.claimExpiresAt.value > now
  }

  /** `SCMStatusDeliveryReassertAfterReplacement` */
  function ReassertAfter(existing: Progress, now: int): Option<int> {
    if LiveAt(existing, now) then existing.claimExpiresAt else None
  }

  /** `reconcileSCMStatusDeliveryForClaim`, on normalised deliveries. */
  function Reconcile(record: Option<Delivery>, existing: Delivery, incoming: Delivery, op: Op): (Option<Delivery>, Reply)
    requires op.Acquire?
  {
    var order := CompareOwners(existing.build, incoming.build);
    var created := Acquired(CreatedClaimed, ReassertAfter(existing.progress, op.now));
    if order > 0 then (record, Acquired(SupersededByNewer, None))
    else if order < 0 then Store(record, Fresh(incoming, op, None), created)
    else if Obsolete(existing, incoming) then (record, Acquired(SupersededByNewer, None))
    else if existing.desired != incoming.desired then
      Store(record, Fresh(incoming, op, existing.lastSent), created)
    else
      var outcome := OutcomeOf(existing.progress, op.now);
      if Claims(outcome) then
        (Some(existing.(progress := Claimed(existing.progress, op.now, Bare(op.owner), op.duration))), Acquired(outcome, None))
      else (record, Acquired(outcome, None))
  }

  function AcquireStep(record: Option<Delivery>, op: Op): (Option<Delivery>, Reply)
    requires op.Acquire?
  {
    if !ValidIdentity(op.delivery) || !GoodClaim(op.now, op.owner, op.duration, op.maxAttempts) then (record, Rejected)
    else if record.None? then Store(None, Fresh(Normalize(op.delivery), op, None), Acquired(CreatedClaimed, None))
    else Reconcile(record, Normalize(record.value), Normalize(op.delivery), op)
  }

  predicate ClaimMatches(p: Progress, owner: Field, claimedAt: int) {
    && p.claimedBy.Some? && Bare(p.claimedBy.value) == Bare(owner)
    && p.claimedAt.Some? && p.claimedAt.value != ZERO_TIME && p.claimedAt.value == claimedAt
  }

  /** The update may proceed: the caller holds the claim, or supersedes without one. */
  predicate Entitled(p: Progress, op: Op)
    requires !op.Acquire?
  {
    if op.MarkSuperseded? then
      || (op.claimOwner.None? && op.claimTime.None?)
      || (op.claimOwner.Some? && op.claimTime.Some? && ClaimMatches(p, op.claimOwner.value, op.claimTime.value))
    else ClaimMatches(p, op.owner, op.claimedAt)
  }

  function FailedProgress(p: Progress, op: Op): Progress
    requires op.RecordFailure?
  {
    var noted := Released(p, FailedStatus(op.failure))
                 .(nextAttemptAt := NormalTime(op.nextAttemptAt), category := Some(op.category),
                   reason := TrimOptional(Some(op.reason)), lastError := TrimOptional(op.lastError));
    if op.failure.Exhausted? && p.attempts < p.maxAttempts then noted.(attempts := p.maxAttempts) else noted
  }

  function Update(d: Delivery, op: Op): Delivery
    requires !op.Acquire?
  {
    match op
    case MarkSent(_, _, sentAt, state) =>
      d.(lastSent := Some(state), supersededAt := None,
         progress := Released(d.progress, Sent).(sentAt := Some(sentAt), category := None, reason := None, lastError := None))
    case RecordFailure(_, _, _, _, _, _, _) => d.(supersededAt := None, progress := FailedProgress(d.progress, op))
    case MarkSuperseded(_, _, at, reason, lastError) =>
      d.(supersededAt := Some(at),
         progress := Released(d.progress, Superseded).(
           category := Some(Label(Permanent, true)), reason := TrimOptional(Some(reason)), lastError := lastError))
  }

  function Step(record: Option<Delivery>, op: Op): (Option<Delivery>, Reply) {
    if op.Acquire? then AcquireStep(record, op)
    else if record.None? then (record, NotFound)
    else if !Entitled(record.value.progress, op) then (record, LostClaim)
    else Store(record, Update(record.value, op), Updated)
  }

  // ---------------------------------------------------------------------------
  // Runs

  /** What a claim was granted for: a build and a state, as which attempt at them, under
      which limit. */
  datatype Tag = Tag(build: Build, state: Label<StateWord>, number: nat, limit: int)

  /** The stored record and all claims granted in the run, each with its tag. */
  datatype Ledger = Ledger(record: Option<Delivery>, claims: seq<Claim>, tags: seq<Tag>)

  function ClaimOf(op: Op): Claim
    requires op.Acquire?
  {
    Claim(Bare(op.owner), op.now, op.now + op.duration, false)
  }

  /** The tag of a claim on a record: the first one of a new record, or one more. */
  function TagOf(d: Delivery, created: bool, tags: seq<Tag>): Tag {
    var number := if created || tags == [] then 1 else tags[|tags| - 1].number + 1;
    Tag(NormalBuild(d.build), Bare(d.desired), number, d.progress.maxAttempts)
  }

  /** The ledger after an acquisition with this answer. */
  function Booked(l: Ledger, op: Op, answer: (Option<Delivery>, Reply)): Ledger
    requires op.Acquire?
  {
    if answer.0.Some? && answer.1.Acquired? && Claims(answer.1.outcome) then
      Ledger(answer.0, l.claims + [ClaimOf(op)], l.tags + [TagOf(answer.0.value, answer.1.outcome.CreatedClaimed?, l.tags)])
    else l.(record := answer.0)
  }

  function Next(l: Ledger, op: Op): Ledger {
    if op.Acquire? then Booked(l, op, AcquireStep(l.record, op))
    else
      var (record, reply) := Step(l.record, op);
      Ledger(record, if reply.Updated? then ReleaseLast(l.claims) else l.claims, l.tags)
  }

  function Run(ops: seq<Op>): Ledger {
    if ops == [] then Ledger(None, [], []) else Next(Run(ops[..|ops| - 1]), ops[|ops| - 1])
  }

  predicate SaneClock(op: Op) { op.Acquire? ==> op.now + op.duration != ZERO_TIME }

  /** A tag is the first of its build and state, or one more than the tag before it. */
  ghost predicate NumberedAt(tags: seq<Tag>, i: int)
    requires 0 <= i < |tags|
  {
    && 1 <= tags[i].number <= tags[i].limit
    && (tags[i].number > 1 ==> i > 0 && tags[i] == tags[i - 1].(number := tags[i - 1].number + 1))
  }

  /** Tags count the attempts at each build and state upwards from one, within the limit. */
  ghost predicate Numbered(tags: seq<Tag>) { forall i :: 0 <= i < |tags| ==> NumberedAt(tags, i) }

  /** The record belongs to the last claim. */
  ghost predicate Tracked(p: Progress, claims: seq<Claim>) {
    && p.status.bare && claims != [] && Held(p, claims[|claims| - 1])
    && (!Is(p.status, Sending) ==> NoClaim(p)) && p.attempts <= p.maxAttempts
  }

  ghost predicate Tagged(d: Delivery, tags: seq<Tag>) {
    && Numbered(tags) && tags != []
    && var t := tags[|tags| - 1];
       && t.build == NormalBuild(d.build) && t.state == Bare(d.desired)
       && t.number <= d.progress.attempts && t.limit == d.progress.maxAttempts
  }

  ghost predicate Inv(l: Ledger) {
    if l.record.None? then l.claims == [] && l.tags == []
    else
      && Tracked(l.record.value.progress, l.claims) && Tagged(l.record.value, l.tags)
      && |l.claims| == |l.tags| && Valid(l.record.value)
  }

  lemma NumberedMore(tags: seq<Tag>, t: Tag)
    requires Numbered(tags) && 1 <= t.number <= t.limit
    requires t.number > 1 ==> tags != [] && t == tags[|tags| - 1].(number := tags[|tags| - 1].number + 1)
    ensures Numbered(tags + [t])
  {
    var all := tags + [t];
    forall i | 0 <= i < |all| ensures NumberedAt(all, i) {
      if i < |tags| { assert NumberedAt(tags, i); }
    }
  }

  lemma FreshTracked(d: Delivery, op: Op, lastSent: Option<Label<StateWord>>, claims: seq<Claim>, tags: seq<Tag>)
    requires op.Acquire? && SaneClock(op) && GoodClaim(op.now, op.owner, op.duration, op.maxAttempts) && Numbered(tags)
    ensures var f := Fresh(d, op, lastSent);
            Tracked(f.progress, claims + [ClaimOf(op)]) && Tagged(f, tags + [TagOf(f, true, tags)])
  {
    NumberedMore(tags, TagOf(Fresh(d, op, lastSent), true, tags));
  }

  lemma ClaimTracked(d: Delivery, claims: seq<Claim>, tags: seq<Tag>, op: Op)
    requires op.Acquire? && SaneClock(op) && GoodClaim(op.now, op.owner, op.duration, op.maxAttempts)
    requires Tracked(d.progress, claims) && Tagged(d, tags)
    requires var p := NormalProgress(d.progress, 1); SharedRules(p) && KnownStatus(p) && Claims(OutcomeOf(p, op.now))
    ensures var p := Claimed(NormalProgress(d.progress, 1), op.now, Bare(op.owner), op.duration);
            var e := Normalize(d).(progress := p);
            Tracked(p, claims + [ClaimOf(op)]) && Tagged(e, tags + [TagOf(e, false, tags)])
  {
    ClaimGuard(NormalProgress(d.progress, 1), op.now);
    var e := Normalize(d).(progress := Claimed(NormalProgress(d.progress, 1), op.now, Bare(op.owner), op.duration));
    NumberedMore(tags, TagOf(e, false, tags));
  }

  /** A claim of a stored delivery keeps it valid, except when the claim would expire
      at the zero time. */
  lemma ClaimKeepsValid(d: Delivery, now: int, owner: Field, duration: int, maxAttempts: int)
    requires Valid(d) && GoodClaim(now, owner, duration, maxAttempts) && CanAttempt(Normalize(d).progress, now)
    ensures var n := Normalize(d);
            Valid(n.(progress := Claimed(n.progress, now, Bare(owner), duration))) <==> now + duration != ZERO_TIME
  {
    var n := Normalize(d);
    NormalizeIdempotent(d);
    ClaimKeepsRules(n.progress, now, owner, duration, maxAttempts, 1);
  }

  lemma FreshValid(incoming: Delivery, op: Op, lastSent: Option<Label<StateWord>>)
    requires op.Acquire? && SaneClock(op) && GoodClaim(op.now, op.owner, op.duration, op.maxAttempts)
    requires lastSent == NormalState(lastSent) && (lastSent.Some? ==> KnownState(lastSent.value))
    ensures Valid(Fresh(Normalize(incoming), op, lastSent)) <==> ValidIdentity(Normalize(incoming))
  {
    var n := Normalize(incoming);
    NormalizeIdempotent(incoming);
    FirstClaimKeepsRules(n.progress, op.now, op.owner, op.duration, op.maxAttempts, 1);
    var f := Fresh(n, op, lastSent);
    assert NormalBuild(f.build) == n.build && NormalTarget(f.target) == n.target && Bare(f.desired) == n.desired;
  }

  lemma StoreFreshInv(l: Ledger, op: Op, incoming: Delivery, lastSent: Option<Label<StateWord>>, reassert: Option<int>)
    requires Inv(l) && SaneClock(op) && op.Acquire? && GoodClaim(op.now, op.owner, op.duration, op.maxAttempts)
    ensures Inv(Booked(l, op, Store(l.record, Fresh(incoming, op, lastSent), Acquired(CreatedClaimed, reassert))))
  {
    FreshTracked(incoming, op, lastSent, l.claims, l.tags);
  }

  lemma ReclaimInv(l: Ledger, op: Op, outcome: ClaimOutcome)
    requires Inv(l) && SaneClock(op) && op.Acquire? && GoodClaim(op.now, op.owner, op.duration, op.maxAttempts)
    requires l.record.Some? && outcome == OutcomeOf(NormalProgress(l.record.value.progress, 1), op.now) && Claims(outcome)
    ensures var n := Normalize(l.record.value);
            var e := n.(progress := Claimed(n.progress, op.now, Bare(op.owner), op.duration));
            Inv(Ledger(Some(e), l.claims + [ClaimOf(op)], l.tags + [TagOf(e, false, l.tags)]))
  {
    ClaimTracked(l.record.value, l.claims, l.tags, op);
    ClaimGuard(NormalProgress(l.record.value.progress, 1), op.now);
    ClaimKeepsValid(l.record.value, op.now, op.owner, op.duration, op.maxAttempts);
  }

  lemma ReconcileInv(l: Ledger, incoming: Delivery, op: Op)
    requires Inv(l) && SaneClock(op) && op.Acquire? && l.record.Some?
    requires GoodClaim(op.now, op.owner, op.duration, op.maxAttempts)
    ensures Inv(Booked(l, op, Reconcile(l.record, Normalize(l.record.value), incoming, op)))
  {
    var existing := Normalize(l.record.value);
    var outcome := OutcomeOf(existing.progress, op.now);
    var order := CompareOwners(existing.build, incoming.build);
    var answer := Reconcile(l.record, existing, incoming, op);
    if order < 0 {
      StoreFreshInv(l, op, incoming, None, ReassertAfter(existing.progress, op.now));
    } else if order > 0 || Obsolete(existing, incoming) {
      assert answer == (l.record, Acquired(SupersededByNewer, None));
    } else if existing.desired != incoming.desired {
      StoreFreshInv(l, op, incoming, existing.lastSent, ReassertAfter(existing.progress, op.now));
    } else if Claims(outcome) {
      ReclaimInv(l, op, outcome);
      var claimed := existing.(progress := Claimed(existing.progress, op.now, Bare(op.owner), op.duration));
      assert answer == (Some(claimed), Acquired(outcome, None)) && !outcome.CreatedClaimed?;
    } else {
      assert answer == (l.record, Acquired(outcome, None));
    }
  }

  lemma AcquireInv(l: Ledger, op: Op)
    requires Inv(l) && SaneClock(op) && op.Acquire?
    ensures Inv(Booked(l, op, AcquireStep(l.record, op)))
  {
    if ValidIdentity(op.delivery) && GoodClaim(op.now, op.owner, op.duration, op.maxAttempts) {
      var incoming := Normalize(op.delivery);
      if l.record.None? { StoreFreshInv(l, op, incoming, None, None); } else { ReconcileInv(l, incoming, op); }
    }
  }

  lemma UpdateTracked(p: Progress, claims: seq<Claim>, q: Progress)
    requires Tracked(p, claims) && q.status.bare && !Is(q.status, Sending) && NoClaim(q)
    requires p.attempts <= q.attempts <= q.maxAttempts
    ensures Tracked(q, ReleaseLast(claims))
  {
  }

  lemma UpdateProgress(d: Delivery, op: Op)
    requires !op.Acquire? && d.progress.attempts <= d.progress.maxAttempts
    ensures Update(d, op).build == d.build && Update(d, op).desired == d.desired
    ensures var p, q := d.progress, Update(d, op).progress;
            q.status.bare && !Is(q.status, Sending) && NoClaim(q) && p.attempts <= q.attempts <= q.maxAttempts == p.maxAttempts
  {
  }

  lemma UpdateInv(l: Ledger, op: Op)
    requires Inv(l) && !op.Acquire?
    ensures Inv(Next(l, op))
  {
    if l.record.Some? {
      var d := l.record.value;
      if Entitled(d.progress, op) && Valid(Update(d, op)) {
        UpdateProgress(d, op);
        UpdateTracked(d.progress, l.claims, Update(d, op).progress);
        assert Next(l, op) == Ledger(Some(Update(d, op)), ReleaseLast(l.claims), l.tags);
      } else {
        assert Next(l, op) == l;
      }
    }
  }

  /** Every operation keeps the account. */
  lemma NextInv(l: Ledger, op: Op)
    requires Inv(l) && SaneClock(op)
    ensures Inv(Next(l, op))
  {
    if op.Acquire? { AcquireInv(l, op); } else { UpdateInv(l, op); }
  }

  lemma {:induction false} RunInv(ops: seq<Op>)
    requires forall op <- ops :: SaneClock(op)
    ensures Inv(Run(ops))
  {
    if ops != [] {
      FrontAndLast(ops);
      RunInv(ops[..|ops| - 1]);
      NextInv(Run(ops[..|ops| - 1]), ops[|ops| - 1]);
    }
  }

  // ---------------------------------------------------------------------------
  // The budget: how many claims one build and state get

  predicate For(t: Tag, build: Build, state: Label<StateWord>) { t.build == build && t.state == state }

  /** How many claims were granted for a build and a state. */
  function Count(tags: seq<Tag>, build: Build, state: Label<StateWord>): int {
    if tags == [] then 0
    else Count(tags[..|tags| - 1], build, state) + if For(tags[|tags| - 1], build, state) then 1 else 0
  }

  /** The limits under which the build and state came to be the stored ones, added up. */
  function Allowance(tags: seq<Tag>, build: Build, state: Label<StateWord>): int {
    if tags == [] then 0
    else
      var last := tags[|tags| - 1];
      Allowance(tags[..|tags| - 1], build, state) + if For(last, build, state) && last.number == 1 then last.limit else 0
  }

  lemma NumberedFront(tags: seq<Tag>)
    requires Numbered(tags) && tags != []
    ensures Numbered(tags[..|tags| - 1]) && NumberedAt(tags, |tags| - 1)
  {
    var front := tags[..|tags| - 1];
    forall i | 0 <= i < |front| ensures NumberedAt(front, i) { assert NumberedAt(tags, i); }
  }

  lemma {:induction false} CountWithin(tags: seq<Tag>, build: Build, state: Label<StateWord>)
    requires Numbered(tags)
    ensures Count(tags, build, state) <= Allowance(tags, build, state)
    ensures tags != [] && For(tags[|tags| - 1], build, state) ==>
              Count(tags, build, state) + tags[|tags| - 1].limit - tags[|tags| - 1].number <= Allowance(tags, build, state)
    decreases |tags|
  {
    if tags != [] {
      var front, last := tags[..|tags| - 1], tags[|tags| - 1];
      NumberedFront(tags);
      CountWithin(front, build, state);
    }
  }

  /** Over every run the record stays valid, every claim is within the limit of its
      record, and a build and state are granted at most the sum of the limits under
      which they were made the stored ones. */
  lemma ClaimBudget(ops: seq<Op>, build: Build, state: Label<StateWord>)
    requires forall op <- ops :: SaneClock(op)
    ensures var l := Run(ops);
            && (l.record.Some? ==> Valid(l.record.value))
            && |l.claims| == |l.tags| && Numbered(l.tags)
            && Count(l.tags, build, state) <= Allowance(l.tags, build, state)
  {
    RunInv(ops);
    CountWithin(Run(ops).tags, build, state);
  }

  /** How often a build and a state were made the stored ones. */
  function Starts(tags: seq<Tag>, build: Build, state: Label<StateWord>): int {
    if tags == [] then 0
    else
      var last := tags[|tags| - 1];
      Starts(tags[..|tags| - 1], build, state) + if For(last, build, state) && last.number == 1 then 1 else 0
  }

  lemma {:induction false} AllowanceOfOne(tags: seq<Tag>, build: Build, state: Label<StateWord>, first: Tag)
    ensures Starts(tags, build, state) >= 0 && (Starts(tags, build, state) == 0 ==> Allowance(tags, build, state) == 0)
    ensures first in tags && For(first, build, state) && first.number == 1 ==>
              && Starts(tags, build, state) >= 1
              && (Starts(tags, build, state) == 1 ==> Allowance(tags, build, state) == first.limit)
    decreases |tags|
  {
    if tags != [] {
      FrontAndLast(tags);
      AllowanceOfOne(tags[..|tags| - 1], build, state, first);
    }
  }

  /** A build and state that a run makes the stored ones once get at most the limit of that
      one time, and without it none. */
  lemma StoredOnceBudget(ops: seq<Op>, build: Build, state: Label<StateWord>, first: Tag)
    requires forall op <- ops :: SaneClock(op)
    requires Starts(Run(ops).tags, build, state) <= 1
    ensures Starts(Run(ops).tags, build, state) == 0 ==> Count(Run(ops).tags, build, state) <= 0
    ensures first in Run(ops).tags && For(first, build, state) && first.number == 1 ==>
              Count(Run(ops).tags, build, state) <= first.limit
  {
    ClaimBudget(ops, build, state);
    AllowanceOfOne(Run(ops).tags, build, state, first);
  }

  // ---------------------------------------------------------------------------
  // Overlapping claims

  /** The answer to the operation carries a time for reassertion. */
  predicate Reasserts(record: Option<Delivery>, op: Op) {
    Step(record, op).1.Acquired? && Step(record, op).1.reassertAfter.Some?
  }

  /** Of normalised deliveries: the incoming one takes the place of the existing one,
      because its build is newer, or because it is the same build with another state that
      is not obsolete. */
  predicate Replaces(existing: Delivery, incoming: Delivery) {
    var order := CompareOwners(existing.build, incoming.build);
    order < 0 || (order == 0 && !Obsolete(existing, incoming) && existing.desired != incoming.desired)
  }

  /** What a caller can tell before asking: the request is acceptable, would replace the
      stored delivery, and that delivery is under a live claim. */
  predicate ReplacesLive(record: Option<Delivery>, op: Op) {
    && Accepted(op) && record.Some?
    && Replaces(Normalize(record.value), Normalize(op.delivery)) && LiveAt(Normalize(record.value).progress, op.now)
  }

  /** The answer carries a time for reassertion exactly when this is so. */
  lemma ReassertsExactly(record: Option<Delivery>, op: Op)
    requires (record.Some? ==> Valid(record.value)) && SaneClock(op)
    ensures Reasserts(record, op) <==> ReplacesLive(record, op)
  {
    if op.Acquire? && record.Some? && GoodClaim(op.now, op.owner, op.duration, op.maxAttempts) {
      NormalizeIdempotent(record.value);
      FreshValid(op.delivery, op, None);
      FreshValid(op.delivery, op, Normalize(record.value).lastSent);
    }
  }

  /** No request of the run replaces a delivery under a live claim. */
  ghost predicate NeverReplacesLive(ops: seq<Op>) {
    forall k :: 0 <= k < |ops| ==> !ReplacesLive(Run(ops[..k]).record, ops[k])
  }

  /** No answer of the run carries a time for reassertion. */
  ghost predicate NeverReasserts(ops: seq<Op>) {
    forall k :: 0 <= k < |ops| ==> !Reasserts(Run(ops[..k]).record, ops[k])
  }

  lemma StoreFreshApart(l: Ledger, op: Op, incoming: Delivery, lastSent: Option<Label<StateWord>>)
    requires Inv(l) && op.Acquire? && op.duration > 0 && l.record.Some?
    ensures var answer := Store(l.record, Fresh(incoming, op, lastSent),
                                Acquired(CreatedClaimed, ReassertAfter(NormalProgress(l.record.value.progress, 1), op.now)));
            Exclusive(Booked(l, op, answer).claims) <==>
            Exclusive(l.claims) && !(answer.1.Acquired? && answer.1.reassertAfter.Some?)
  {
    ExclusiveMore(l.claims, ClaimOf(op));
  }

  lemma ReclaimApart(l: Ledger, op: Op)
    requires Inv(l) && op.Acquire? && op.duration > 0 && l.record.Some?
    requires Claims(OutcomeOf(NormalProgress(l.record.value.progress, 1), op.now))
    ensures Exclusive(l.claims + [ClaimOf(op)]) <==> Exclusive(l.claims)
  {
    ExclusiveMore(l.claims, ClaimOf(op));
  }

  lemma ReconcileApart(l: Ledger, incoming: Delivery, op: Op)
    requires Inv(l) && op.Acquire? && op.duration > 0 && l.record.Some?
    ensures var answer := Reconcile(l.record, Normalize(l.record.value), incoming, op);
            Exclusive(Booked(l, op, answer).claims) <==>
            Exclusive(l.claims) && !(answer.1.Acquired? && answer.1.reassertAfter.Some?)
  {
    var existing := Normalize(l.record.value);
    var answer := Reconcile(l.record, existing, incoming, op);
    var outcome := OutcomeOf(existing.progress, op.now);
    var order := CompareOwners(existing.build, incoming.build);
    if order < 0 {
      StoreFreshApart(l, op, incoming, None);
    } else if order > 0 || Obsolete(existing, incoming) {
      assert answer == (l.record, Acquired(SupersededByNewer, None));
    } else if existing.desired != incoming.desired {
      StoreFreshApart(l, op, incoming, existing.lastSent);
    } else if Claims(outcome) {
      ReclaimApart(l, op);
    } else {
      assert answer == (l.record, Acquired(outcome, None));
    }
  }

  /** An operation brings claims to overlap exactly when it replaces a delivery under a
      live claim. */
  lemma StepApart(l: Ledger, op: Op)
    requires Inv(l) && SaneClock(op)
    ensures Exclusive(Next(l, op).claims) <==> Exclusive(l.claims) && !ReplacesLive(l.record, op)
  {
    StepAnswered(l, op);
    ReassertsExactly(l.record, op);
  }

  lemma StepAnswered(l: Ledger, op: Op)
    requires Inv(l)
    ensures Exclusive(Next(l, op).claims) <==> Exclusive(l.claims) && !Reasserts(l.record, op)
  {
    if !op.Acquire? {
      ReleaseKeepsExclusive(l.claims);
    } else if ValidIdentity(op.delivery) && GoodClaim(op.now, op.owner, op.duration, op.maxAttempts) {
      if l.record.None? {
        ExclusiveMore(l.claims, ClaimOf(op));
      } else {
        ReconcileApart(l, Normalize(op.delivery), op);
      }
    }
  }

  lemma NeverReplacesMore(front: seq<Op>, last: Op)
    ensures NeverReplacesLive(front + [last]) <==> NeverReplacesLive(front) && !ReplacesLive(Run(front).record, last)
  {
    var ops := front + [last];
    assert forall k :: 0 <= k < |front| ==> ops[..k] == front[..k] && ops[k] == front[k];
    assert ops[..|front|] == front && ops[|front|] == last;
    if NeverReplacesLive(ops) {
      forall k | 0 <= k < |front| ensures !ReplacesLive(Run(front[..k]).record, front[k]) {
        assert !ReplacesLive(Run(ops[..k]).record, ops[k]);
      }
    }
  }

  /** The claims of a run, whatever they were granted for, do not overlap exactly when no
      request of the run replaces a delivery under a live claim. */
  lemma {:induction false} ClaimsApartExactly(ops: seq<Op>)
    requires forall op <- ops :: SaneClock(op)
    ensures Exclusive(Run(ops).claims) <==> NeverReplacesLive(ops)
    decreases |ops|
  {
    if ops != [] {
      var front, last := ops[..|ops| - 1], ops[|ops| - 1];
      FrontAndLast(ops);
      RunInv(front);
      ClaimsApartExactly(front);
      StepApart(Run(front), last);
      NeverReplacesMore(front, last);
    }
  }

  /** The same, told from the answers: exactly when none carries a time for reassertion. */
  lemma ClaimsApartByAnswers(ops: seq<Op>)
    requires forall op <- ops :: SaneClock(op)
    ensures Exclusive(Run(ops).claims) <==> NeverReasserts(ops)
  {
    ClaimsApartExactly(ops);
    forall k | 0 <= k < |ops|
      ensures Reasserts(Run(ops[..k]).record, ops[k]) <==> ReplacesLive(Run(ops[..k]).record, ops[k])
    {
      assert forall op <- ops[..k] :: op in ops;
      RunInv(ops[..k]);
      ReassertsExactly(Run(ops[..k]).record, ops[k]);
    }
  }

  /** A terminal record is never claimed again; it is only replaced, by another build or
      for another state. */
  lemma TerminalOnlyReplaced(d: Delivery, op: Op)
    requires Valid(d) && Terminal(Normalize(d).progress) && op.Acquire?
    requires Step(Some(d), op).1.Acquired? && Claims(Step(Some(d), op).1.outcome)
    ensures Step(Some(d), op).1.outcome.CreatedClaimed? && Step(Some(d), op).0.Some?
    ensures var r := Step(Some(d), op).0.value; NormalBuild(r.build) != NormalBuild(d.build) || Bare(r.desired) != Bare(d.desired)
  {
    ClaimGuard(Normalize(d).progress, op.now);
  }

  // ---------------------------------------------------------------------------
  // A run whose claims overlap

  /** An acquisition that creates the record. */
  lemma CreatesRecord(l: Ledger, op: Op)
    requires l == Ledger(None, [], []) && Accepted(op) && SaneClock(op)
    ensures var f := Fresh(Normalize(op.delivery), op, None);
            Next(l, op) == Ledger(Some(f), [ClaimOf(op)], [Tag(NormalBuild(f.build), Bare(f.desired), 1, op.maxAttempts)])
  {
    FreshValid(op.delivery, op, None);
  }

  /** An acquisition by the same build for another final state, of which none was sent. */
  lemma ReplacesState(l: Ledger, was: Op, op: Op)
    requires Accepted(was) && Accepted(op) && SaneClock(op)
    requires l.record == Some(Fresh(Normalize(was.delivery), was, None))
    requires was.delivery.build == op.delivery.build && was.delivery.desired != op.delivery.desired
    requires FinalState(op.delivery.desired)
    ensures var f := Fresh(Normalize(op.delivery), op, None);
            Next(l, op) == Ledger(Some(f), l.claims + [ClaimOf(op)],
                                  l.tags + [Tag(NormalBuild(f.build), Bare(f.desired), 1, op.maxAttempts)])
  {
    FreshValid(op.delivery, op, None);
    NormalizeIdempotent(was.delivery);
    var existing := Normalize(l.record.value);
    assert existing.build == NormalBuild(was.delivery.build) && existing.lastSent == None;
    assert existing.desired == Bare(was.delivery.desired);
  }

  /** The acquisition of a state by a worker: one attempt, for a hundred units of time. */
  function Ask(d: Delivery, state: StateWord, owner: Field, now: int): Op {
    Acquire(d.(desired := Label(state, true)), owner, now, 100, 1)
  }

  /** One build asks for success, then failure, then success again, at times 10, 20 and
      30, each time with a single attempt allowed. All three requests are granted: the
      build and state of the first and third get two claims under a limit of one, which is
      all that two limits of one allow, and all three claims are live at once. */
  lemma ReplacementsOverlap(d: Delivery, owner: Field)
    requires ValidIdentity(d) && ValidIdentity(Normalize(d)) && owner.word != ""
    ensures var l := Run([Ask(d, Success, owner, 10), Ask(d, Failure, owner, 20), Ask(d, Success, owner, 30)]);
            && l.claims == [Claim(Bare(owner), 10, 110, false), Claim(Bare(owner), 20, 120, false), Claim(Bare(owner), 30, 130, false)]
            && !Exclusive(l.claims)
            && Count(l.tags, NormalBuild(d.build), Label(Success, true)) == 2
            && Allowance(l.tags, NormalBuild(d.build), Label(Success, true)) == 2
            && forall t <- l.tags :: t.limit == 1
  {
    var a, b, c := Ask(d, Success, owner, 10), Ask(d, Failure, owner, 20), Ask(d, Success, owner, 30);
    RunThree(a, b, c);
    var one := Next(Ledger(None, [], []), a);
    CreatesRecord(Ledger(None, [], []), a);
    ReplacesState(one, a, b);
    ReplacesState(Next(one, b), b, c);
    var build := NormalBuild(d.build);
    var x, y := Tag(build, Label(Success, true), 1, 1), Tag(build, Label(Failure, true), 1, 1);
    ThreeInOrder(ClaimOf(a), ClaimOf(b), ClaimOf(c));
    ThreeInOrder(x, y, x);
    CountThree(x, y, build, Label(Success, true));
    Overlapping(ClaimOf(a), ClaimOf(b), ClaimOf(c));
  }

  lemma RunMore(ops: seq<Op>, op: Op)
    ensures Run(ops + [op]) == Next(Run(ops), op)
  {
    AppendFront(ops, op);
  }

  lemma RunThree(a: Op, b: Op, c: Op)
    ensures Run([a, b, c]) == Next(Next(Next(Ledger(None, [], []), a), b), c)
  {
    ThreeInOrder(a, b, c);
    RunMore([], a);
    RunMore([a], b);
    RunMore([a] + [b], c);
    assert [] + [a] == [a];
  }

  lemma ThreeInOrder<T>(x: T, y: T, z: T)
    ensures [x] + [y] + [z] == [x, y, z]
  {
  }

  lemma Overlapping(a: Claim, b: Claim, c: Claim)
    requires !a.released && a.expires > b.at
    ensures !Exclusive([a, b, c])
  {
    assert [a, b, c][0] == a && [a, b, c][1] == b;
  }

  lemma CountThree(x: Tag, y: Tag, build: Build, state: Label<StateWord>)
    requires For(x, build, state) && !For(y, build, state) && x.number == x.limit == 1
    ensures Count([x, y, x], build, state) == Allowance([x, y, x], build, state) == 2
  {
    ThreeInOrder(x, y, x);
    CountMore([], x, build, state);
    CountMore([x], y, build, state);
    CountMore([x] + [y], x, build, state);
    assert [] + [x] == [x];
  }

  lemma CountMore(tags: seq<Tag>, t: Tag, build: Build, state: Label<StateWord>)
    ensures Count(tags + [t], build, state) == Count(tags, build, state) + if For(t, build, state) then 1 else 0
    ensures Allowance(tags + [t], build, state) ==
            Allowance(tags, build, state) + if For(t, build, state) && t.number == 1 then t.limit else 0
  {
    AppendFront(tags, t);
  }

  // ---------------------------------------------------------------------------
  // The newest build owns the stream

  /** Builds by attempt, then creation time, then identifier. */
  predicate AtMost(a: Build, b: Build) {
    || a.attempt < b.attempt
    || (a.attempt == b.attempt &&
        (a.createdAt < b.createdAt || (a.createdAt == b.createdAt && StringLe(a.id.word, b.id.word))))
  }

  /** A build is described the same way wherever it appears. */
  predicate Agree(a: Build, b: Build) {
    a.id.word == b.id.word ==> a.attempt == b.attempt && a.createdAt == b.createdAt
  }

  lemma AtMostOrder(a: Build, b: Build, c: Build)
    ensures AtMost(a, a)
    ensures AtMost(a, b) || AtMost(b, a)
    ensures AtMost(a, b) && AtMost(b, c) ==> AtMost(a, c)
    ensures AtMost(a, b) && AtMost(b, a) ==> NormalBuild(a) == NormalBuild(b)
  {
    StringLeTotal(a.id.word, a.id.word);
    StringLeTotal(a.id.word, b.id.word);
    if StringLe(a.id.word, b.id.word) && StringLe(b.id.word, c.id.word) { StringLeTransitive(a.id.word, b.id.word, c.id.word); }
    if StringLe(a.id.word, b.id.word) && StringLe(b.id.word, a.id.word) { StringLeAntisymmetric(a.id.word, b.id.word); }
  }

  lemma CompareMeaning(a: Build, b: Build)
    requires Agree(a, b)
    ensures CompareOwners(a, b) > 0 <==> !AtMost(a, b)
    ensures CompareOwners(a, b) == 0 <==> NormalBuild(a) == NormalBuild(b)
  {
    AtMostOrder(a, b, a);
    AtMostOrder(b, a, b);
  }

  /** An acquisition that is not turned away for its input. */
  predicate Accepted(op: Op) {
    && op.Acquire? && ValidIdentity(op.delivery) && ValidIdentity(Normalize(op.delivery))
    && GoodClaim(op.now, op.owner, op.duration, op.maxAttempts)
  }

  function Newer(a: Build, b: Build): Build { if AtMost(a, b) then b else a }

  /** An accepted acquisition leaves the stream to the newer build; nothing else moves it. */
  lemma OwnerStep(d: Delivery, op: Op)
    requires Valid(d) && SaneClock(op) && (op.Acquire? ==> Agree(d.build, op.delivery.build))
    ensures Step(Some(d), op).0.Some?
    ensures NormalBuild(Step(Some(d), op).0.value.build) ==
            if Accepted(op) then Newer(NormalBuild(d.build), NormalBuild(op.delivery.build)) else NormalBuild(d.build)
  {
    if op.Acquire? && ValidIdentity(op.delivery) && GoodClaim(op.now, op.owner, op.duration, op.maxAttempts) {
      OwnerReconciled(d, op);
    }
  }

  lemma OwnerReconciled(d: Delivery, op: Op)
    requires Valid(d) && SaneClock(op) && op.Acquire? && Agree(d.build, op.delivery.build)
    requires GoodClaim(op.now, op.owner, op.duration, op.maxAttempts)
    ensures var r := Reconcile(Some(d), Normalize(d), Normalize(op.delivery), op).0;
            && r.Some?
            && NormalBuild(r.value.build) ==
               if ValidIdentity(Normalize(op.delivery)) then Newer(NormalBuild(d.build), NormalBuild(op.delivery.build))
               else NormalBuild(d.build)
  {
    var existing, incoming := Normalize(d), Normalize(op.delivery);
    CompareMeaning(existing.build, incoming.build);
    AtMostOrder(existing.build, incoming.build, existing.build);
    FreshValid(op.delivery, op, None);
    FreshValid(op.delivery, op, existing.lastSent);
  }

  /** The builds of the accepted acquisitions. */
  function Arrivals(ops: seq<Op>): set<Build> {
    set op | op in ops && Accepted(op) :: NormalBuild(op.delivery.build)
  }

  /** No build is described in two ways. */
  ghost predicate Coherent(ops: seq<Op>) {
    forall a, b :: a in ops && b in ops && a.Acquire? && b.Acquire? ==> Agree(a.delivery.build, b.delivery.build)
  }

  lemma ArrivalsMore(ops: seq<Op>, op: Op)
    ensures Arrivals(ops + [op]) == Arrivals(ops) + if Accepted(op) then {NormalBuild(op.delivery.build)} else {}
  {
  }

  ghost predicate Newest(b: Build, builds: set<Build>) {
    b in builds && forall c <- builds :: AtMost(c, b)
  }

  lemma NewestMore(b: Build, builds: set<Build>, c: Build)
    requires Newest(b, builds)
    ensures Newest(Newer(b, c), builds + {c})
  {
    AtMostOrder(b, c, b);
    AtMostOrder(c, c, c);
    forall x | x in builds ensures AtMost(x, Newer(b, c)) { AtMostOrder(x, b, c); }
  }

  /** Over every run the stream belongs to the newest build that ever asked for it,
      in whatever order the builds came. */
  lemma {:induction false} NewestBuildOwns(ops: seq<Op>)
    requires Coherent(ops) && forall op <- ops :: SaneClock(op)
    ensures var l := Run(ops);
            if l.record.None? then Arrivals(ops) == {} else Newest(NormalBuild(l.record.value.build), Arrivals(ops))
  {
    if ops != [] {
      var front, last := ops[..|ops| - 1], ops[|ops| - 1];
      FrontAndLast(ops);
      NewestBuildOwns(front);
      RunInv(front);
      ArrivalsMore(front, last);
      OwnerAfter(front, last);
    }
  }

  lemma OwnerAfter(front: seq<Op>, last: Op)
    requires Coherent(front + [last]) && SaneClock(last)
    requires var l := Run(front);
             && Inv(l)
             && if l.record.None? then Arrivals(front) == {} else Newest(NormalBuild(l.record.value.build), Arrivals(front))
    ensures var r := Next(Run(front), last).record;
            var builds := Arrivals(front) + if Accepted(last) then {NormalBuild(last.delivery.build)} else {};
            if r.None? then builds == {} else Newest(NormalBuild(r.value.build), builds)
  {
    var l := Run(front);
    if l.record.None? {
      FirstOwner(l, last);
      if last.Acquire? { AtMostOrder(NormalBuild(last.delivery.build), last.delivery.build, last.delivery.build); }
    } else {
      if last.Acquire? { ArrivalAgrees(front, last, NormalBuild(l.record.value.build)); }
      LaterOwner(l, Arrivals(front), last);
    }
  }

  lemma LaterOwner(l: Ledger, builds: set<Build>, last: Op)
    requires l.record.Some? && Valid(l.record.value) && SaneClock(last) && Newest(NormalBuild(l.record.value.build), builds)
    requires last.Acquire? ==> Agree(l.record.value.build, last.delivery.build)
    ensures var r := Next(l, last).record;
            r.Some? && Newest(NormalBuild(r.value.build), builds + if Accepted(last) then {NormalBuild(last.delivery.build)} else {})
  {
    var d := l.record.value;
    OwnerStep(d, last);
    NextRecord(l, last);
    if Accepted(last) { NewestMore(NormalBuild(d.build), builds, NormalBuild(last.delivery.build)); }
    assert builds + {} == builds;
  }

  lemma NextRecord(l: Ledger, op: Op)
    ensures Next(l, op).record == Step(l.record, op).0
  {
  }

  lemma ArrivalAgrees(front: seq<Op>, last: Op, b: Build)
    requires Coherent(front + [last]) && last.Acquire? && b in Arrivals(front)
    ensures Agree(b, last.delivery.build)
  {
    var op :| op in front && Accepted(op) && NormalBuild(op.delivery.build) == b;
    assert op in front + [last] && last in front + [last];
  }

  lemma FirstOwner(l: Ledger, op: Op)
    requires l.record.None? && SaneClock(op)
    ensures if Accepted(op) then
              Next(l, op).record.Some? && NormalBuild(Next(l, op).record.value.build) == NormalBuild(op.delivery.build)
            else Next(l, op).record.None?
  {
    if op.Acquire? && ValidIdentity(op.delivery) && GoodClaim(op.now, op.owner, op.duration, op.maxAttempts) {
      FreshValid(op.delivery, op, None);
    }
  }

  /** Two runs in which the same builds ask for the stream end with the same owner. */
  lemma OwnerOrderFree(a: seq<Op>, b: seq<Op>)
    requires Coherent(a) && Coherent(b) && Arrivals(a) == Arrivals(b)
    requires (forall op <- a :: SaneClock(op)) && (forall op <- b :: SaneClock(op))
    ensures Run(a).record.Some? == Run(b).record.Some?
    ensures Run(a).record.Some? ==> NormalBuild(Run(a).record.value.build) == NormalBuild(Run(b).record.value.build)
  {
    NewestBuildOwns(a);
    NewestBuildOwns(b);
    if Run(a).record.Some? && Run(b).record.Some? {
      var x, y := NormalBuild(Run(a).record.value.build), NormalBuild(Run(b).record.value.build);
      AtMostOrder(x, y, x);
    }
  }

  // ---------------------------------------------------------------------------
  // A final state is never taken back

  /** The stream moves to a newer build, or stays with its build and keeps a final state
      final. */
  ghost predicate Advances(before: Option<Delivery>, after: Option<Delivery>) {
    before.Some? ==>
      && after.Some? && AtMost(before.value.build, after.value.build)
      && (NormalBuild(before.value.build) == NormalBuild(after.value.build) && FinalState(Bare(before.value.desired)) ==>
            FinalState(Bare(after.value.desired)))
  }

  lemma AdvancesTransitive(a: Option<Delivery>, b: Option<Delivery>, c: Option<Delivery>)
    requires Advances(a, b) && Advances(b, c)
    ensures Advances(a, c)
  {
    if a.Some? {
      AtMostOrder(a.value.build, b.value.build, c.value.build);
      AtMostOrder(b.value.build, c.value.build, a.value.build);
      AtMostOrder(b.value.build, a.value.build, b.value.build);
    }
  }

  lemma StateStep(d: Delivery, op: Op)
    requires Step(Some(d), op).0.Some?
    requires NormalBuild(Step(Some(d), op).0.value.build) == NormalBuild(d.build) && FinalState(Bare(d.desired))
    ensures FinalState(Bare(Step(Some(d), op).0.value.desired))
  {
  }

  lemma AdvanceStep(d: Delivery, op: Op)
    requires Valid(d) && SaneClock(op) && (op.Acquire? ==> Agree(d.build, op.delivery.build))
    ensures Advances(Some(d), Step(Some(d), op).0)
  {
    OwnerStep(d, op);
    var r := Step(Some(d), op).0.value;
    if op.Acquire? { AtMostOrder(NormalBuild(d.build), NormalBuild(op.delivery.build), d.build); }
    AtMostOrder(d.build, d.build, d.build);
    if NormalBuild(r.build) == NormalBuild(d.build) && FinalState(Bare(d.desired)) { StateStep(d, op); }
  }

  /** However a run goes on, its stream only advances. */
  lemma {:induction false} RunAdvances(ops: seq<Op>, more: seq<Op>)
    requires Coherent(ops + more) && forall op <- ops + more :: SaneClock(op)
    ensures Advances(Run(ops).record, Run(ops + more).record)
    decreases |more|
  {
    if more == [] {
      assert ops + more == ops;
      if Run(ops).record.Some? { AtMostOrder(Run(ops).record.value.build, Run(ops).record.value.build, Run(ops).record.value.build); }
    } else {
      var front, last := more[..|more| - 1], more[|more| - 1];
      FrontAndLast(more);
      ConcatAssoc(ops, front, [last]);
      FrontAndLast(ops + more);
      assert (ops + more)[..|ops + more| - 1] == ops + front;
      RunAdvances(ops, front);
      RunInv(ops + front);
      NewestBuildOwns(ops + front);
      var l := Run(ops + front);
      if l.record.Some? {
        if last.Acquire? { ArrivalAgrees(ops + front, last, NormalBuild(l.record.value.build)); }
        AdvanceStep(l.record.value, last);
        NextRecord(l, last);
      }
      AdvancesTransitive(Run(ops).record, l.record, Run(ops + more).record);
    }
  }
}
