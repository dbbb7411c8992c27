/** What notification and commit status deliveries share: the record of their attempts,
    the guard of the next attempt and the claim that starts it. */
module Attempts {
  import opened Text

  /** A text field, seen through its trimmed content: the content, as a string or as a
      word of a fixed vocabulary, and whether the field was trimmed already. */
  datatype Label<W> = Label(word: W, bare: bool)

  type Field = Label<string>

  /** Trimming. */
  function Bare<W>(text: Label<W>): Label<W> { text.(bare := true) }

  /** The text is exactly the word, without white space around it. */
  predicate Is<W(==)>(text: Label<W>, word: W) { text == Label(word, true) }

  function FieldAs(s: string, trimmed: string): Field { Label(trimmed, trimmed == s) }

  function FieldOf(s: string): Field { FieldAs(s, Trim(s)) }

  /** Seen as fields, strings are trimmed by `Bare`, are blank when their content is
      empty, and are empty when in addition nothing was there to trim. */
  lemma FieldsTrim(s: string)
    ensures FieldOf(Trim(s)) == Bare(FieldOf(s))
    ensures FieldOf(s).word == "" <==> Trim(s) == ""
    ensures Is(FieldOf(s), "") <==> s == ""
  {
    TrimIdempotent(s);
    TrimFixpoint("");
    FieldsAs(s, Trim(s), Trim(""));
  }

  lemma FieldsAs(s: string, trimmed: string, none: string)
    requires none == "" && (s == "" ==> trimmed == none)
    ensures FieldAs(trimmed, trimmed) == Bare(FieldAs(s, trimmed))
    ensures FieldAs(s, trimmed).word == "" <==> trimmed == ""
    ensures Is(FieldAs(s, trimmed), "") <==> s == ""
  {
  }

  datatype StatusWord =
    | Pending | Sending | RetryWaiting | Sent | FailedPermanent | FailedExhausted | Superseded
    | OtherStatus(text: string)

  datatype CategoryWord = Retryable | Permanent | OtherCategory(text: string)

  /** How the texts of a field stand for words: reading a text and writing the word out. */
  datatype Vocabulary<!W> = Vocabulary(read: string -> W, write: W -> string)

  /** Every text can be recovered from the word it is read as, so no word read has a
      second spelling. */
  ghost predicate Faithful<W>(v: Vocabulary<W>) { forall s: string :: v.write(v.read(s)) == s }

  function LabelAs<W>(v: Vocabulary<W>, s: string, trimmed: string): Label<W> { Label(v.read(trimmed), trimmed == s) }

  function LabelOf<W>(v: Vocabulary<W>, s: string): Label<W> { LabelAs(v, s, Trim(s)) }

  /** Seen as labels, texts are trimmed by `Bare`. */
  lemma LabelsTrim<W>(v: Vocabulary<W>, s: string)
    ensures LabelOf(v, Trim(s)) == Bare(LabelOf(v, s))
  {
    TrimIdempotent(s);
  }

  /** A label is a word exactly when the text is that word's own, trimmed text. */
  lemma LabelsAreTexts<W>(v: Vocabulary<W>, s: string, t: string)
    requires Faithful(v) && Trimmed(t)
    ensures Is(LabelOf(v, s), v.read(t)) <==> s == t
  {
    TrimFixpoint(t);
    LabelIs(v, s, Trim(s), t);
  }

  lemma LabelIs<W>(v: Vocabulary<W>, s: string, trimmed: string, t: string)
    requires Faithful(v)
    ensures Is(LabelAs(v, s, trimmed), v.read(t)) <==> trimmed == s == t
  {
    ReadInjective(v, trimmed, t);
  }

  lemma ReadInjective<W>(v: Vocabulary<W>, a: string, b: string)
    requires Faithful(v)
    ensures v.read(a) == v.read(b) ==> a == b
  {
    assert v.write(v.read(a)) == a && v.write(v.read(b)) == b;
  }

  function ReadStatus(s: string): StatusWord {
    if s == "pending" then Pending
    else if s == "sending" then Sending
    else if s == "retry_waiting" then RetryWaiting
    else if s == "sent" then Sent
    else if s == "failed_permanent" then FailedPermanent
    else if s == "failed_exhausted" then FailedExhausted
    else if s == "superseded" then Superseded
    else OtherStatus(s)
  }

  function WriteStatus(w: StatusWord): string {
    match w
    case Pending => "pending"
    case Sending => "sending"
    case RetryWaiting => "retry_waiting"
    case Sent => "sent"
    case FailedPermanent => "failed_permanent"
    case FailedExhausted => "failed_exhausted"
    case Superseded => "superseded"
    case OtherStatus(text) => text
  }

  function ReadCategory(s: string): CategoryWord {
    if s == "retryable" then Retryable else if s == "permanent" then Permanent else OtherCategory(s)
  }

  function WriteCategory(w: CategoryWord): string {
    match w
    case Retryable => "retryable"
    case Permanent => "permanent"
    case OtherCategory(text) => text
  }

  lemma DeliveryWordsFaithful()
    ensures Faithful(Vocabulary(ReadStatus, WriteStatus))
    ensures Faithful(Vocabulary(ReadCategory, WriteCategory))
  {
    forall s: string ensures WriteStatus(ReadStatus(s)) == s { }
    forall s: string ensures WriteCategory(ReadCategory(s)) == s { }
  }

  /** Times are numbers; zero is the zero time, which stands for an absent one. */
  const ZERO_TIME := 0

  datatype Progress = Progress(
    status: Label<StatusWord>,
    attempts: int,
    maxAttempts: int,
    lastAttemptAt: Option<int>,
    nextAttemptAt: Option<int>,
    claimedAt: Option<int>,
    claimExpiresAt: Option<int>,
    claimedBy: Option<Field>,
    category: Option<Label<CategoryWord>>,
    reason: Option<Field>,
    lastError: Option<Field>,
    sentAt: Option<int>)

  // ---------------------------------------------------------------------------
  // Normal forms

  function TrimOptional(s: Option<Field>): Option<Field> {
    if s.None? || s.value.word == "" then None else Some(Bare(s.value))
  }

  function NormalTime(t: Option<int>): Option<int> {
    if t == Some(ZERO_TIME) then None else t
  }

  function NormalCategory(c: Option<Label<CategoryWord>>): Option<Label<CategoryWord>> {
    if c.None? || c.value.word == OtherCategory("") then None else Some(Bare(c.value))
  }

  /** The smallest attempt limit is 0 for notifications and 1 for commit statuses. */
  function NormalProgress(p: Progress, least: int): Progress {
    Progress(
      Bare(p.status), p.attempts, if p.maxAttempts <= 0 then least else p.maxAttempts,
      NormalTime(p.lastAttemptAt), NormalTime(p.nextAttemptAt), NormalTime(p.claimedAt), NormalTime(p.claimExpiresAt),
      TrimOptional(p.claimedBy), NormalCategory(p.category), TrimOptional(p.reason), TrimOptional(p.lastError),
      NormalTime(p.sentAt))
  }

  lemma NormalProgressIdempotent(p: Progress, least: int)
    requires 0 <= least
    ensures NormalProgress(NormalProgress(p, least), least) == NormalProgress(p, least)
  {
  }

  // ---------------------------------------------------------------------------
  // Rules on the attempts

  predicate Terminal(p: Progress) {
    Is(p.status, Sent) || Is(p.status, FailedPermanent) || Is(p.status, FailedExhausted) || Is(p.status, Superseded)
  }

  predicate ValidCategory(c: Label<CategoryWord>) { Is(c, Retryable) || Is(c, Permanent) }

  predicate HasCategory(p: Progress, word: CategoryWord) { p.category.Some? && Is(p.category.value, word) }

  predicate NoClaim(p: Progress) { p.claimedBy.None? && p.claimedAt.None? && p.claimExpiresAt.None? }

  predicate FullClaim(p: Progress) {
    && p.claimedBy.Some? && p.claimedAt.Some? && p.claimExpiresAt.Some?
    && p.claimExpiresAt.value > p.claimedAt.value
  }

  /** The rules both kinds of delivery state alike. */
  predicate SharedRules(p: Progress) {
    && 0 <= p.attempts <= p.maxAttempts
    && (p.category.Some? ==> ValidCategory(p.category.value))
    && (Terminal(p) ==> NoClaim(p) && p.nextAttemptAt.None?)
    && (Is(p.status, Pending) ==> p.nextAttemptAt.None? && NoClaim(p))
    && (Is(p.status, RetryWaiting) ==> p.attempts < p.maxAttempts && p.nextAttemptAt.Some? && HasCategory(p, Retryable))
    && (Is(p.status, Sending) ==> p.attempts >= 1 && FullClaim(p))
    && (Is(p.status, Sent) ==> p.attempts >= 1 && p.sentAt.Some?)
    && (Is(p.status, FailedPermanent) ==> HasCategory(p, Permanent))
    && (Is(p.status, FailedExhausted) ==> p.attempts == p.maxAttempts && HasCategory(p, Retryable))
  }

  // ---------------------------------------------------------------------------
  // The guard

  predicate CanAttempt(p: Progress, now: int) {
    && !Terminal(p) && p.attempts < p.maxAttempts
    && if Is(p.status, Pending) then true
       else if Is(p.status, RetryWaiting) then p.nextAttemptAt.Some? && now >= p.nextAttemptAt.value
       else Is(p.status, Sending) && p.claimExpiresAt.Some? && now >= p.claimExpiresAt.value
  }

  predicate KnownStatus(p: Progress) { !p.status.word.OtherStatus? && p.status.bare }

  /** An attempt that is allowed stays allowed, and under the shared rules, which valid
      deliveries of both kinds keep, one becomes allowed at some time exactly when the
      delivery is neither terminal nor used up. */
  lemma AttemptWindow(p: Progress, now: int, later: int)
    ensures CanAttempt(p, now) && now <= later ==> CanAttempt(p, later)
    ensures SharedRules(p) && KnownStatus(p) ==>
              ((exists t :: CanAttempt(p, t)) <==> !Terminal(p) && p.attempts < p.maxAttempts)
  {
    if SharedRules(p) && KnownStatus(p) && !Terminal(p) && p.attempts < p.maxAttempts {
      var t := if Is(p.status, RetryWaiting) then p.nextAttemptAt.value
               else if Is(p.status, Sending) then p.claimExpiresAt.value else now;
      assert CanAttempt(p, t);
    }
  }

  // ---------------------------------------------------------------------------
  // Claims

  datatype ClaimOutcome =
    | CreatedClaimed | RetryClaimed | StaleClaimReclaimed
    | AlreadySent | PermanentlyFailed | AttemptsExhausted | ClaimedByOther | RetryNotDue | SupersededByNewer

  predicate Claims(o: ClaimOutcome) { o.CreatedClaimed? || o.RetryClaimed? || o.StaleClaimReclaimed? }

  /** `ClaimOutcomeFromExisting`: what a claim of a stored delivery comes to. */
  function OutcomeOf(p: Progress, now: int): ClaimOutcome {
    if Is(p.status, Sent) then AlreadySent
    else if Is(p.status, FailedPermanent) then PermanentlyFailed
    else if Is(p.status, FailedExhausted) then AttemptsExhausted
    else if Is(p.status, Superseded) then SupersededByNewer
    else if Is(p.status, Sending) then
      if p.attempts >= p.maxAttempts then AttemptsExhausted
      else if p.claimExpiresAt.Some? && now >= p.claimExpiresAt.value then StaleClaimReclaimed
      else ClaimedByOther
    else if Is(p.status, RetryWaiting) then
      if p.nextAttemptAt.Some? && now < p.nextAttemptAt.value then RetryNotDue
      else if p.attempts >= p.maxAttempts then AttemptsExhausted
      else RetryClaimed
    else if Is(p.status, Pending) then
      if p.attempts >= p.maxAttempts then AttemptsExhausted else RetryClaimed
    else ClaimedByOther
  }

  /** The next attempt begins. */
  function Claimed(p: Progress, now: int, owner: Field, duration: int): Progress {
    p.(status := Label(Sending, true), attempts := p.attempts + 1, lastAttemptAt := Some(now), nextAttemptAt := None,
       claimedAt := Some(now), claimExpiresAt := Some(now + duration), claimedBy := Some(owner))
  }

  /** The first attempt of a new delivery. */
  function FirstClaim(p: Progress, now: int, owner: Field, duration: int, maxAttempts: int): Progress {
    Claimed(p, now, owner, duration).(
      attempts := 1, maxAttempts := maxAttempts, category := None, reason := None, lastError := None, sentAt := None)
  }

  /** How an attempt can fail. */
  datatype Failure = Retry | Permanently | Exhausted

  function FailedStatus(f: Failure): StatusWord {
    match f
    case Retry => RetryWaiting
    case Permanently => FailedPermanent
    case Exhausted => FailedExhausted
  }

  /** The attempt is over and its claim with it. */
  function Released(p: Progress, status: StatusWord): Progress {
    p.(status := Label(status, true), nextAttemptAt := None, claimedAt := None, claimExpiresAt := None, claimedBy := None)
  }

  /** What the caller of a claim must supply. */
  predicate GoodClaim(now: int, owner: Field, duration: int, maxAttempts: int) {
    now != ZERO_TIME && owner.word != "" && duration > 0 && maxAttempts > 0
  }

  /** A stored delivery is claimed exactly when the guard allows an attempt. */
  lemma ClaimGuard(p: Progress, now: int)
    requires SharedRules(p) && KnownStatus(p)
    ensures Claims(OutcomeOf(p, now)) <==> CanAttempt(p, now)
  {
  }

  /** A claim keeps the shared rules, unless it expires at the zero time. */
  lemma ClaimKeepsRules(p: Progress, now: int, owner: Field, duration: int, maxAttempts: int, least: int)
    requires GoodClaim(now, owner, duration, maxAttempts)
    requires SharedRules(p) && p == NormalProgress(p, least) && CanAttempt(p, now)
    ensures var q := Claimed(p, now, Bare(owner), duration);
            SharedRules(NormalProgress(q, least)) <==> now + duration != ZERO_TIME
  {
  }

  lemma FirstClaimKeepsRules(p: Progress, now: int, owner: Field, duration: int, maxAttempts: int, least: int)
    requires GoodClaim(now, owner, duration, maxAttempts)
    ensures var q := FirstClaim(p, now, Bare(owner), duration, maxAttempts);
            SharedRules(NormalProgress(q, least)) <==> now + duration != ZERO_TIME
  {
  }

  // ---------------------------------------------------------------------------
  // The claims granted on one delivery

  /** A successful claim, and whether an accepted update has ended it. */
  datatype Claim = Claim(owner: Field, at: int, expires: int, released: bool)

  function ReleaseLast(claims: seq<Claim>): seq<Claim> {
    if claims == [] then [] else claims[|claims| - 1 := claims[|claims| - 1].(released := true)]
  }

  /** Consecutive claims do not overlap: the earlier one was ended by an update, or had
      expired. */
  ghost predicate Exclusive(claims: seq<Claim>) {
    && (forall c <- claims :: c.at < c.expires)
    && forall i :: 0 <= i < |claims| - 1 ==> claims[i].released || claims[i].expires <= claims[i + 1].at
  }

  /** The record belongs to the last claim. */
  predicate Held(p: Progress, c: Claim) {
    && (!c.released <==> Is(p.status, Sending))
    && (!c.released ==> p.claimedBy == Some(c.owner) && p.claimedAt == Some(c.at) && p.claimExpiresAt == Some(c.expires))
    && c.owner.bare && c.owner.word != "" && c.at != ZERO_TIME && c.expires != ZERO_TIME
  }

  /** One more claim leaves the claims apart exactly when the last one had ended. */
  lemma ExclusiveMore(claims: seq<Claim>, c: Claim)
    requires c.at < c.expires
    ensures Exclusive(claims + [c]) <==>
            Exclusive(claims) && (claims == [] || claims[|claims| - 1].released || claims[|claims| - 1].expires <= c.at)
  {
    var all, n := claims + [c], |claims|;
    assert forall i :: 0 <= i < n ==> all[i] == claims[i];
    assert all[n] == c;
    if Exclusive(all) {
      assert forall x <- claims :: x in all;
      assert n > 0 ==> all[n - 1].released || all[n - 1].expires <= all[n].at;
    }
  }

  lemma ReleaseKeepsExclusive(claims: seq<Claim>)
    ensures Exclusive(ReleaseLast(claims)) <==> Exclusive(claims)
  {
    if claims != [] {
      var n, all := |claims| - 1, ReleaseLast(claims);
      assert forall i :: 0 <= i < n ==> all[i] == claims[i];
      assert all[n].at == claims[n].at && all[n].expires == claims[n].expires;
      assert forall c <- claims :: exists i :: 0 <= i <= n && claims[i] == c;
      if Exclusive(all) {
        forall c | c in claims ensures c.at < c.expires {
          var i :| 0 <= i <= n && claims[i] == c;
          assert all[i] in all;
        }
      }
      if Exclusive(claims) {
        forall c | c in all ensures c.at < c.expires {
          var i :| 0 <= i <= n && all[i] == c;
          assert claims[i] in claims;
        }
      }
    }
  }

  /** While the clock of the claims does not run backwards, no two claims overlap, not
      even two that do not follow each other. */
  lemma ExclusivePairs(claims: seq<Claim>, i: nat, j: nat)
    requires Exclusive(claims) && i < j < |claims|
    requires forall k :: 0 <= k < |claims| - 1 ==> claims[k].at <= claims[k + 1].at
    ensures claims[i].released || claims[i].expires <= claims[j].at
    decreases j
  {
    if i + 1 < j { ExclusivePairs(claims, i, j - 1); }
  }
}
