/** Notification deliveries: normal form and validity of the stored record, the claims
    and updates of the delivery repository on the record of one logical key, and what
    holds over every sequence of them. */
module Notifications {
  import opened Text
  import opened Attempts

  datatype Transport = Email | SlackWebhook | SlackDM | OtherTransport(text: string)

  datatype DestinationKind = PersonalEmail | SharedTarget | SlackIdentity | OtherKind(text: string)

  function ReadTransport(s: string): Transport {
    if s == "email" then Email
    else if s == "slack_webhook" then SlackWebhook
    else if s == "slack_dm" then SlackDM
    else OtherTransport(s)
  }

  function WriteTransport(t: Transport): string {
    match t
    case Email => "email"
    case SlackWebhook => "slack_webhook"
    case SlackDM => "slack_dm"
    case OtherTransport(text) => text
  }

  function ReadKind(s: string): DestinationKind {
    if s == "personal_email" then PersonalEmail
    else if s == "shared_target" then SharedTarget
    else if s == "slack_identity" then SlackIdentity
    else OtherKind(s)
  }

  function WriteKind(k: DestinationKind): string {
    match k
    case PersonalEmail => "personal_email"
    case SharedTarget => "shared_target"
    case SlackIdentity => "slack_identity"
    case OtherKind(text) => text
  }

  lemma DestinationWordsFaithful()
    ensures Faithful(Vocabulary(ReadTransport, WriteTransport))
    ensures Faithful(Vocabulary(ReadKind, WriteKind))
  {
    forall s: string ensures WriteTransport(ReadTransport(s)) == s { }
    forall s: string ensures WriteKind(ReadKind(s)) == s { }
  }

  datatype Identity = Identity(
    buildID: Field, eventType: Field, transport: Label<Transport>, kind: Label<DestinationKind>, destinationKey: Field,
    targetID: Option<Field>, recipientUserID: Option<Field>, workspaceID: Option<Field>, recipient: Field)

  datatype Delivery = Delivery(identity: Identity, progress: Progress)

  // ---------------------------------------------------------------------------
  // Normal form and validity

  function NormalIdentity(i: Identity): Identity {
    Identity(
      Bare(i.buildID), Bare(i.eventType), Bare(i.transport), Bare(i.kind), Bare(i.destinationKey),
      TrimOptional(i.targetID), TrimOptional(i.recipientUserID), TrimOptional(i.workspaceID), Bare(i.recipient))
  }

  function Normalize(d: Delivery): Delivery {
    Delivery(NormalIdentity(d.identity), NormalProgress(d.progress, 0))
  }

  predicate Reaches(transport: Label<Transport>, kind: Label<DestinationKind>) {
    || (Is(transport, Email) && (Is(kind, PersonalEmail) || Is(kind, SharedTarget)))
    || (Is(transport, SlackWebhook) && Is(kind, SharedTarget))
    || (Is(transport, SlackDM) && Is(kind, SlackIdentity))
  }

  predicate ValidIdentity(i: Identity) {
    i.buildID.word != "" && i.eventType.word != "" && i.destinationKey.word != "" && Reaches(i.transport, i.kind)
  }

  /** The rules of `Validate` on the attempts of a normalised delivery. */
  predicate ValidProgress(p: Progress) {
    && SharedRules(p) && p.maxAttempts > 0 && KnownStatus(p) && !Is(p.status, Superseded)
    && (p.sentAt.Some? <==> Is(p.status, Sent))
    && (Is(p.status, RetryWaiting) ==> NoClaim(p))
    && (Is(p.status, Sending) ==> p.nextAttemptAt.None?)
  }

  predicate Valid(d: Delivery) {
    var n := Normalize(d);
    ValidIdentity(n.identity) && ValidProgress(n.progress)
  }

  lemma NormalizeIdempotent(d: Delivery)
    ensures Normalize(Normalize(d)) == Normalize(d)
  {
    NormalProgressIdempotent(d.progress, 0);
  }

  /** A delivery is valid exactly when its normal form is. */
  lemma ValidNormalForm(d: Delivery)
    ensures Valid(d) <==> Valid(Normalize(d))
  {
    NormalizeIdempotent(d);
  }

  // ---------------------------------------------------------------------------
  // Repository operations on the record of one logical key

  datatype Op =
    | Acquire(delivery: Delivery, owner: Field, now: int, duration: int, maxAttempts: int)
    | MarkSent(owner: Field, claimedAt: int, sentAt: int)
    | RecordFailure(failure: Failure, owner: Field, claimedAt: int, nextAttemptAt: Option<int>,
                    category: Label<CategoryWord>, reason: Field, lastError: Option<Field>)

  datatype Reply = Acquired(outcome: ClaimOutcome) | Updated | LostClaim | NotFound | Rejected

  /** The decision of `claimNotificationDelivery` on a normalised delivery. */
  function ClaimDecision(p: Progress, now: int): ClaimOutcome {
    if Terminal(p) then OutcomeOf(p, now)
    else if p.attempts >= p.maxAttempts then AttemptsExhausted
    else if Is(p.status, Sending) then
      if p.claimExpiresAt.Some? && now < p.claimExpiresAt.value then ClaimedByOther else StaleClaimReclaimed
    else if Is(p.status, RetryWaiting) || Is(p.status, Pending) then
      if Is(p.status, RetryWaiting) && p.nextAttemptAt.Some? && now < p.nextAttemptAt.value then RetryNotDue
      else RetryClaimed
    else OutcomeOf(p, now)
  }

  predicate ClaimMatches(p: Progress, owner: Field, claimedAt: int) {
    && Is(p.status, Sending) && p.claimedBy.Some? && p.claimedAt.Some?
    && Bare(p.claimedBy.value) == owner && p.claimedAt.value == claimedAt
  }

  function SentProgress(p: Progress, sentAt: int): Progress {
    Released(p, Sent).(sentAt := Some(sentAt), category := None, reason := None, lastError := None)
  }

  function FailedProgress(p: Progress, op: Op): Progress
    requires op.RecordFailure?
  {
    var noted := Released(p, FailedStatus(op.failure))
                 .(category := Some(op.category), reason := TrimOptional(Some(op.reason)), lastError := TrimOptional(op.lastError));
    match op.failure
    case Retry => noted.(nextAttemptAt := NormalTime(op.nextAttemptAt))
    case Permanently => noted
    case Exhausted => noted.(attempts := if p.attempts < p.maxAttempts then p.maxAttempts else p.attempts)
  }

  /** A changed record is stored only when it is valid. */
  function Store(was: Option<Delivery>, changed: Delivery, reply: Reply): (Option<Delivery>, Reply) {
    if Valid(changed) then (Some(changed), reply) else (was, Rejected)
  }

  function AcquireStep(record: Option<Delivery>, op: Op): (Option<Delivery>, Reply)
    requires op.Acquire?
  {
    var incoming := Normalize(op.delivery);
    if !ValidIdentity(incoming.identity) || !GoodClaim(op.now, op.owner, op.duration, op.maxAttempts) then (record, Rejected)
    else if record.None? then
      Store(None, incoming.(progress := FirstClaim(incoming.progress, op.now, Bare(op.owner), op.duration, op.maxAttempts)),
            Acquired(CreatedClaimed))
    else
      var existing := Normalize(record.value);
      var outcome := ClaimDecision(existing.progress, op.now);
      if Claims(outcome) then
        (Some(existing.(progress := Claimed(existing.progress, op.now, Bare(op.owner), op.duration))), Acquired(outcome))
      else (record, Acquired(outcome))
  }

  function Step(record: Option<Delivery>, op: Op): (Option<Delivery>, Reply) {
    if op.Acquire? then AcquireStep(record, op)
    else if record.None? then (record, NotFound)
    else
      var p := record.value.progress;
      if !ClaimMatches(p, Bare(op.owner), op.claimedAt) then (record, LostClaim)
      else
        Store(record, record.value.(progress := if op.MarkSent? then SentProgress(p, op.sentAt) else FailedProgress(p, op)), Updated)
  }

  /** On valid deliveries the decision is the one the repository contract tabulates, and
      it is a claim exactly when the guard allows an attempt. */
  lemma ClaimDecisionGuarded(p: Progress, now: int)
    requires ValidProgress(p)
    ensures ClaimDecision(p, now) == OutcomeOf(p, now)
    ensures Claims(ClaimDecision(p, now)) <==> CanAttempt(p, now)
  {
    ClaimGuard(p, now);
  }

  lemma ClaimKeepsProgress(p: Progress, now: int, owner: Field, duration: int, maxAttempts: int)
    requires GoodClaim(now, owner, duration, maxAttempts)
    requires ValidProgress(p) && p == NormalProgress(p, 0) && CanAttempt(p, now)
    ensures ValidProgress(NormalProgress(Claimed(p, now, Bare(owner), duration), 0)) <==> now + duration != ZERO_TIME
  {
    ClaimKeepsRules(p, now, owner, duration, maxAttempts, 0);
  }

  /** A claim of a stored delivery keeps it valid, except when the claim would expire
      at the zero time. */
  lemma ClaimKeepsValid(d: Delivery, now: int, owner: Field, duration: int, maxAttempts: int)
    requires Valid(d) && GoodClaim(now, owner, duration, maxAttempts) && CanAttempt(Normalize(d).progress, now)
    ensures var n := Normalize(d);
            Valid(n.(progress := Claimed(n.progress, now, Bare(owner), duration))) <==> now + duration != ZERO_TIME
  {
    var n := Normalize(d);
    NormalizeIdempotent(d);
    ClaimKeepsProgress(n.progress, now, owner, duration, maxAttempts);
  }

  // ---------------------------------------------------------------------------
  // Runs

  /** The stored record and the claims on it: the one the run began under, if any, and
      those granted since. */
  datatype Ledger = Ledger(record: Option<Delivery>, claims: seq<Claim>)

  /** The claim a delivery that is being sent is under. */
  function ClaimsOf(p: Progress): seq<Claim> {
    if Is(p.status, Sending) && FullClaim(p) then
      [Claim(p.claimedBy.value, p.claimedAt.value, p.claimExpiresAt.value, false)]
    else []
  }

  /** A run begins without a record, or with any record. */
  function Opening(start: Option<Delivery>): Ledger {
    Ledger(start, if start.None? then [] else ClaimsOf(Normalize(start.value).progress))
  }

  function Next(l: Ledger, op: Op): Ledger {
    var (record, reply) := Step(l.record, op);
    Ledger(
      record,
      if reply.Acquired? && Claims(reply.outcome) && op.Acquire? then
        l.claims + [Claim(Bare(op.owner), op.now, op.now + op.duration, false)]
      else if reply.Updated? then ReleaseLast(l.claims)
      else l.claims)
  }

  function Run(start: Option<Delivery>, ops: seq<Op>): Ledger {
    if ops == [] then Opening(start) else Next(Run(start, ops[..|ops| - 1]), ops[|ops| - 1])
  }

  /** No claim is set to expire at the zero time. */
  predicate SaneClock(op: Op) { op.Acquire? ==> op.now + op.duration != ZERO_TIME }

  /** The attempts of a stored record against the claims on it and the attempts used up
      before them. */
  ghost predicate Accounted(used: int, p: Progress, claims: seq<Claim>) {
    var n := NormalProgress(p, 0);
    && Exclusive(claims) && ValidProgress(n)
    && (if claims == [] then !Is(n.status, Sending) else Held(n, claims[|claims| - 1]))
    && used + |claims| <= n.attempts && (Is(n.status, FailedExhausted) || used + |claims| == n.attempts)
  }

  ghost predicate Inv(used: int, l: Ledger) {
    if l.record.None? then l.claims == [] && used == 0
    else Accounted(used, l.record.value.progress, l.claims) && ValidIdentity(NormalIdentity(l.record.value.identity))
  }

  /** The attempts a record had used up before the claim it is under. */
  function UsedBefore(start: Option<Delivery>): int {
    if start.None? then 0 else start.value.progress.attempts - |Opening(start).claims|
  }

  lemma OpeningInv(start: Option<Delivery>)
    requires start.Some? ==> Valid(start.value)
    ensures Inv(UsedBefore(start), Opening(start))
  {
  }

  lemma FirstAccounted(p: Progress, now: int, owner: Field, duration: int, maxAttempts: int)
    requires GoodClaim(now, owner, duration, maxAttempts) && now + duration != ZERO_TIME
    ensures Accounted(0, FirstClaim(p, now, Bare(owner), duration, maxAttempts), [Claim(Bare(owner), now, now + duration, false)])
  {
    FirstClaimKeepsRules(p, now, owner, duration, maxAttempts, 0);
  }

  lemma ClaimAccounted(used: int, p: Progress, claims: seq<Claim>, now: int, owner: Field, duration: int, maxAttempts: int)
    requires GoodClaim(now, owner, duration, maxAttempts) && now + duration != ZERO_TIME
    requires Accounted(used, p, claims) && Claims(ClaimDecision(NormalProgress(p, 0), now))
    ensures Accounted(used, Claimed(NormalProgress(p, 0), now, Bare(owner), duration),
                      claims + [Claim(Bare(owner), now, now + duration, false)])
  {
    var n, c := NormalProgress(p, 0), Claim(Bare(owner), now, now + duration, false);
    NormalProgressIdempotent(p, 0);
    ClaimDecisionGuarded(n, now);
    ClaimKeepsProgress(n, now, owner, duration, maxAttempts);
    ExclusiveMore(claims, c);
  }

  lemma UpdateAccounted(used: int, p: Progress, claims: seq<Claim>, q: Progress)
    requires Accounted(used, p, claims) && Is(p.status, Sending)
    requires ValidProgress(NormalProgress(q, 0)) && q.status.bare && !Is(q.status, Sending)
    requires q.attempts == p.attempts || (Is(q.status, FailedExhausted) && p.attempts <= q.attempts)
    ensures Accounted(used, q, ReleaseLast(claims))
  {
    ReleaseKeepsExclusive(claims);
  }

  /** Every operation keeps the account. */
  lemma NextInv(used: int, l: Ledger, op: Op)
    requires Inv(used, l) && SaneClock(op)
    ensures Inv(used, Next(l, op))
  {
    if op.Acquire? {
      AcquireInv(used, l, op);
    } else if l.record.Some? {
      UpdateInv(used, l, op);
    }
  }

  lemma AcquireInv(used: int, l: Ledger, op: Op)
    requires Inv(used, l) && SaneClock(op) && op.Acquire?
    ensures Inv(used, Next(l, op))
  {
    if GoodClaim(op.now, op.owner, op.duration, op.maxAttempts) && ValidIdentity(NormalIdentity(op.delivery.identity)) {
      if l.record.None? { AcquireNewInv(used, l, op); } else { AcquireStoredInv(used, l, op); }
    }
  }

  lemma AcquireNewInv(used: int, l: Ledger, op: Op)
    requires Inv(used, l) && SaneClock(op) && op.Acquire? && l.record.None?
    requires GoodClaim(op.now, op.owner, op.duration, op.maxAttempts) && ValidIdentity(NormalIdentity(op.delivery.identity))
    ensures Inv(used, Next(l, op))
  {
    var p := FirstClaim(NormalProgress(op.delivery.progress, 0), op.now, Bare(op.owner), op.duration, op.maxAttempts);
    var c := Claim(Bare(op.owner), op.now, op.now + op.duration, false);
    FirstAccounted(NormalProgress(op.delivery.progress, 0), op.now, op.owner, op.duration, op.maxAttempts);
    assert l.claims + [c] == [c];
    assert Next(l, op) == Ledger(Some(Delivery(NormalIdentity(op.delivery.identity), p)), [c]);
  }

  lemma AcquireStoredInv(used: int, l: Ledger, op: Op)
    requires Inv(used, l) && SaneClock(op) && op.Acquire? && l.record.Some?
    requires GoodClaim(op.now, op.owner, op.duration, op.maxAttempts) && ValidIdentity(NormalIdentity(op.delivery.identity))
    ensures Inv(used, Next(l, op))
  {
    var p := l.record.value.progress;
    if Claims(ClaimDecision(NormalProgress(p, 0), op.now)) {
      ClaimAccounted(used, p, l.claims, op.now, op.owner, op.duration, op.maxAttempts);
      assert Next(l, op) == Ledger(
        Some(Delivery(NormalIdentity(l.record.value.identity), Claimed(NormalProgress(p, 0), op.now, Bare(op.owner), op.duration))),
        l.claims + [Claim(Bare(op.owner), op.now, op.now + op.duration, false)]);
    } else {
      assert Next(l, op) == l;
    }
  }

  lemma UpdateInv(used: int, l: Ledger, op: Op)
    requires Inv(used, l) && !op.Acquire? && l.record.Some?
    ensures Inv(used, Next(l, op))
  {
    var p := l.record.value.progress;
    var q := if op.MarkSent? then SentProgress(p, op.sentAt) else FailedProgress(p, op);
    if ClaimMatches(p, Bare(op.owner), op.claimedAt) && ValidProgress(NormalProgress(q, 0)) {
      UpdateAccounted(used, p, l.claims, q);
    }
  }

  lemma {:induction false} RunInv(start: Option<Delivery>, ops: seq<Op>)
    requires start.Some? ==> Valid(start.value)
    requires forall op <- ops :: SaneClock(op)
    ensures Inv(UsedBefore(start), Run(start, ops))
    decreases |ops|
  {
    if ops == [] {
      OpeningInv(start);
    } else {
      FrontAndLast(ops);
      RunInv(start, ops[..|ops| - 1]);
      NextInv(UsedBefore(start), Run(start, ops[..|ops| - 1]), ops[|ops| - 1]);
    }
  }

  /** A step never changes the attempt limit; it leaves a terminal record and its claims
      alone; and it accepts an update only from the holder of the last claim, which must
      not have been ended. */
  lemma StepSafety(used: int, l: Ledger, op: Op)
    requires Inv(used, l) && l.record.Some?
    ensures Next(l, op).record.Some? && Next(l, op).record.value.progress.maxAttempts == l.record.value.progress.maxAttempts
    ensures Terminal(Normalize(l.record.value).progress) ==> Next(l, op) == l
    ensures Step(l.record, op).1.Updated? ==>
              && !op.Acquire? && l.claims != []
              && var last := l.claims[|l.claims| - 1]; !last.released && Bare(op.owner) == last.owner && op.claimedAt == last.at
  {
    if op.Acquire? { ClaimDecisionGuarded(NormalProgress(l.record.value.progress, 0), op.now); }
  }

  lemma {:induction false} LimitKept(d: Delivery, ops: seq<Op>)
    requires Valid(d) && forall op <- ops :: SaneClock(op)
    ensures var r := Run(Some(d), ops).record; r.Some? && r.value.progress.maxAttempts == d.progress.maxAttempts
    decreases |ops|
  {
    if ops != [] {
      FrontAndLast(ops);
      var front := ops[..|ops| - 1];
      LimitKept(d, front);
      RunInv(Some(d), front);
      StepSafety(UsedBefore(Some(d)), Run(Some(d), front), ops[|ops| - 1]);
    }
  }

  /** Over every run without a record at its start: the record stays valid, no more claims
      are granted than the record allows attempts, and each claim is granted only after
      the one before it was ended or expired. */
  lemma ClaimBudget(ops: seq<Op>)
    requires forall op <- ops :: SaneClock(op)
    ensures var l := Run(None, ops);
            && Exclusive(l.claims)
            && (l.record.Some? ==> Valid(l.record.value) && |l.claims| <= l.record.value.progress.maxAttempts)
            && (l.record.None? ==> l.claims == [])
  {
    RunInv(None, ops);
  }

  /** Over every run from any valid record, a pending one among them: the further claims
      are at most the attempts left, and none overlaps the one before it, the claim of
      the record at the start included. */
  lemma RemainingBudget(d: Delivery, ops: seq<Op>)
    requires Valid(d) && forall op <- ops :: SaneClock(op)
    ensures var l := Run(Some(d), ops);
            && l.record.Some? && Valid(l.record.value) && Exclusive(l.claims)
            && |l.claims| - |Opening(Some(d)).claims| <= d.progress.maxAttempts - d.progress.attempts
  {
    RunInv(Some(d), ops);
    LimitKept(d, ops);
  }

  /** After a terminal record nothing is claimed any more. */
  lemma {:induction false} NothingAfterTerminal(start: Option<Delivery>, ops: seq<Op>, more: seq<Op>)
    requires start.Some? ==> Valid(start.value)
    requires forall op <- ops :: SaneClock(op)
    requires Run(start, ops).record.Some? && Terminal(Normalize(Run(start, ops).record.value).progress)
    ensures Run(start, ops + more) == Run(start, ops)
    decreases |more|
  {
    if more == [] {
      assert ops + more == ops;
    } else {
      var front, last := more[..|more| - 1], more[|more| - 1];
      NothingAfterTerminal(start, ops, front);
      RunInv(start, ops);
      StepSafety(UsedBefore(start), Run(start, ops), last);
      FrontAndLast(more);
      ConcatAssoc(ops, front, [last]);
      assert (ops + more)[..|ops + more| - 1] == ops + front;
    }
  }
}
