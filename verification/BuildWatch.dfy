/** The poll loop of `build watch`: consecutive snapshots of a build are compared and
    the differences printed, until the build is terminal. */
module BuildWatch {
  import opened Text
  import opened Sorting

  datatype Word = Pending | Queued | Preparing | Running | Success | Failed | Canceled | Unknown(text: string)

  /** A status text as the server sent it: a word, and any white space around it. */
  datatype Status = Status(word: Word, padding: string)

  datatype StepSnapshot = StepSnapshot(index: int, id: string, status: Status, exitCode: Option<int>)

  /** One poll: the build's status and its steps, and whether logs can be streamed. */
  datatype Poll = Poll(buildStatus: Status, steps: seq<StepSnapshot>, logs: bool)

  datatype WatchEvent =
    | BuildStatus(status: Status)
    | StepStarted(index: int, status: Status)
    | StepFinished(index: int, status: Status, exitCode: Option<int>)
    | Terminal(status: Status, code: int)

  datatype Mark = Started | Finished

  // ---------------------------------------------------------------------------
  // Statuses

  function Trim(s: Status): Status { s.(padding := "") }

  predicate Is(s: Status, word: Word) { s == Status(word, "") }

  predicate TerminalStatus(s: Status) { s.word.Success? || s.word.Failed? || s.word.Canceled? }

  function ExitCode(s: Status): int { if s.word.Success? then 0 else 1 }

  /** `CanTransitionStep` of the lifecycle rules. */
  predicate CanTransitionStep(from: Status, to: Status) {
    if Is(from, Pending) then Is(to, Running)
    else if Is(from, Running) then Is(to, Success) || Is(to, Failed)
    else false
  }

  predicate CanCancelStep(from: Status) { Is(from, Pending) || Is(from, Running) }

  predicate StepMoves(from: Status, to: Status) {
    CanTransitionStep(from, to) || (CanCancelStep(from) && Is(to, Canceled))
  }

  /** Any number of lifecycle moves. */
  ghost predicate MovesAlong(path: seq<Status>) {
    path != [] && forall i :: 0 <= i < |path| - 1 ==> StepMoves(path[i], path[i + 1])
  }

  ghost predicate Reaches(from: Status, to: Status) {
    exists path :: MovesAlong(path) && path[0] == from && path[|path| - 1] == to
  }

  // ---------------------------------------------------------------------------
  // One poll

  predicate StepLe(a: StepSnapshot, b: StepSnapshot) {
    if a.index == b.index then StringLe(a.id, b.id) else a.index < b.index
  }

  /** `sortBuildSteps` */
  function SortSteps(steps: seq<StepSnapshot>): seq<StepSnapshot> { Sort(steps, StepLe) }

  /** The lookup table of a poll; a repeated index keeps the last step. */
  function LookupOf(steps: seq<StepSnapshot>): map<int, StepSnapshot> {
    if steps == [] then map[]
    else LookupOf(steps[..|steps| - 1])[steps[|steps| - 1].index := steps[|steps| - 1]]
  }

  /** How a step changed, given the table of the previous poll if there was one. */
  function Change(previous: Option<map<int, StepSnapshot>>, step: StepSnapshot): Option<Mark> {
    var had := previous.Some? && step.index in previous.value;
    var changed := !had || previous.value[step.index].status != step.status;
    Judge(Is(step.status, Running), had, changed, TerminalStatus(step.status))
  }

  /** The branches of the loop body on one step. */
  function Judge(running: bool, had: bool, changed: bool, terminal: bool): Option<Mark> {
    if running then
      if changed then Some(Started) else None
    else if had && changed && terminal then Some(Finished)
    else None
  }

  /** What one step prints. */
  function StepEvents(previous: Option<map<int, StepSnapshot>>, step: StepSnapshot): seq<WatchEvent> {
    match Change(previous, step)
    case None => []
    case Some(Started) => [StepStarted(step.index, Trim(step.status))]
    case Some(Finished) => [StepFinished(step.index, Trim(step.status), step.exitCode)]
  }

  function StepsEvents(previous: Option<map<int, StepSnapshot>>, steps: seq<StepSnapshot>): seq<WatchEvent> {
    if steps == [] then []
    else StepsEvents(previous, steps[..|steps| - 1]) + StepEvents(previous, steps[|steps| - 1])
  }

  function TableOf(previous: Option<Poll>): Option<map<int, StepSnapshot>> {
    match previous
    case None => None
    case Some(poll) => Some(LookupOf(SortSteps(poll.steps)))
  }

  function StatusOf(previous: Option<Poll>): Option<Status> {
    match previous
    case None => None
    case Some(poll) => Some(poll.buildStatus)
  }

  function Opening(status: Option<Status>, poll: Poll): (r: seq<WatchEvent>) {
    if status != Some(poll.buildStatus) then [BuildStatus(Trim(poll.buildStatus))] else []
  }

  function Ending(poll: Poll): seq<WatchEvent> {
    if TerminalStatus(poll.buildStatus) then [Terminal(Trim(poll.buildStatus), ExitCode(poll.buildStatus))] else []
  }

  /** Everything one poll prints. */
  function DiffFrom(table: Option<map<int, StepSnapshot>>, status: Option<Status>, poll: Poll): seq<WatchEvent> {
    Opening(status, poll) + StepsEvents(table, SortSteps(poll.steps)) + Ending(poll)
  }

  function Diff(previous: Option<Poll>, poll: Poll): seq<WatchEvent> {
    DiffFrom(TableOf(previous), StatusOf(previous), poll)
  }

  function LastOf(polls: seq<Poll>): Option<Poll> {
    if polls == [] then None else Some(polls[|polls| - 1])
  }

  /** Everything printed over the polls. */
  function Printed(polls: seq<Poll>): seq<WatchEvent> {
    if polls == [] then []
    else Printed(polls[..|polls| - 1]) + Diff(LastOf(polls[..|polls| - 1]), polls[|polls| - 1])
  }

  /** No poll but the last finds the build terminal, so the loop performs them all. */
  ghost predicate Performed(polls: seq<Poll>) {
    forall i :: 0 <= i < |polls| - 1 ==> !TerminalStatus(polls[i].buildStatus)
  }

  // ---------------------------------------------------------------------------
  // The loop

  /** The steps for which a poll asks for a log stream. */
  function Requested(poll: Poll): set<int> {
    if poll.logs then (set s | s in poll.steps && Is(s.status, Running) :: s.index) else {}
  }

  function Requests(polls: seq<Poll>): set<int> {
    set p, i | p in polls && i in Requested(p) :: i
  }

  /** `watchBuild`: polls until the build is terminal, or until there are no more
      polls because the watch was interrupted. */
  method WatchBuild(polls: seq<Poll>) returns (events: seq<WatchEvent>, streams: seq<int>, result: Option<Status>, n: nat)
    ensures n <= |polls| && Performed(polls[..n]) && events == Printed(polls[..n])
    ensures result.None? ==> n == |polls| && (forall p <- polls :: !TerminalStatus(p.buildStatus))
    ensures result.Some? ==> n > 0 && TerminalStatus(polls[n - 1].buildStatus) && result.value == Trim(polls[n - 1].buildStatus)
    ensures Distinct(streams) && (set i | i in streams) == Requests(polls[..n])
  {
    events, streams, n := [], [], 0;
    var previous: Option<map<int, StepSnapshot>>, previousStatus := None, None;
    var active: set<int> := {};
    while n < |polls|
      invariant 0 <= n <= |polls|
      invariant forall p <- polls[..n] :: !TerminalStatus(p.buildStatus)
      invariant events == Printed(polls[..n])
      invariant previous == TableOf(LastOf(polls[..n])) && previousStatus == StatusOf(LastOf(polls[..n]))
      invariant Distinct(streams) && active == (set i | i in streams) == Requests(polls[..n])
    {
      var poll := polls[n];
      TakeMore(polls, n);
      RequestsGrow(polls, n);
      var table, more := PollOnce(previous, previousStatus, poll);
      events := events + more;
      streams, active := StartStreams(poll, streams, active);
      previous, previousStatus := Some(table), Some(poll.buildStatus);
      n := n + 1;
      if TerminalStatus(poll.buildStatus) {
        result := Some(Trim(poll.buildStatus));
        return;
      }
    }
    result := None;
    TakeAll(polls);
  }

  /** The body of the loop, up to the streams. */
  method PollOnce(previous: Option<map<int, StepSnapshot>>, previousStatus: Option<Status>, poll: Poll)
    returns (table: map<int, StepSnapshot>, events: seq<WatchEvent>)
    ensures table == LookupOf(SortSteps(poll.steps))
    ensures events == DiffFrom(previous, previousStatus, poll)
  {
    var steps := SortSteps(poll.steps);
    table := BuildLookup(steps);
    events := if previousStatus != Some(poll.buildStatus) then [BuildStatus(Trim(poll.buildStatus))] else [];
    var more := CompareSteps(previous, steps);
    events := events + more;
    if TerminalStatus(poll.buildStatus) {
      events := events + [Terminal(Trim(poll.buildStatus), ExitCode(poll.buildStatus))];
    }
  }

  method BuildLookup(steps: seq<StepSnapshot>) returns (table: map<int, StepSnapshot>)
    ensures table == LookupOf(steps)
  {
    table := map[];
    var i := 0;
    while i < |steps|
      invariant 0 <= i <= |steps| && table == LookupOf(steps[..i])
    {
      TakeMore(steps, i);
      table := table[steps[i].index := steps[i]];
      i := i + 1;
    }
    TakeAll(steps);
  }

  method CompareSteps(previous: Option<map<int, StepSnapshot>>, steps: seq<StepSnapshot>) returns (events: seq<WatchEvent>)
    ensures events == StepsEvents(previous, steps)
  {
    events := [];
    var i := 0;
    while i < |steps|
      invariant 0 <= i <= |steps| && events == StepsEvents(previous, steps[..i])
    {
      TakeMore(steps, i);
      events := events + StepEvents(previous, steps[i]);
      i := i + 1;
    }
    TakeAll(steps);
  }

  /** `startStepStream` for the running steps of a poll: at most one stream per index. */
  method StartStreams(poll: Poll, streams: seq<int>, active: set<int>)
    returns (streams': seq<int>, active': set<int>)
    requires Distinct(streams) && active == (set i | i in streams)
    ensures Distinct(streams') && active' == (set i | i in streams')
    ensures active' == active + Requested(poll)
  {
    var steps := SortSteps(poll.steps);
    streams', active' := streams, active;
    var i := 0;
    while i < |steps|
      invariant 0 <= i <= |steps|
      invariant Distinct(streams') && active' == (set i | i in streams')
      invariant active' == active + (if poll.logs then (set s | s in steps[..i] && Is(s.status, Running) :: s.index) else {})
    {
      var step := steps[i];
      TakeMore(steps, i);
      if poll.logs && Is(step.status, Running) && step.index !in active' {
        streams' := streams' + [step.index];
        active' := active' + {step.index};
      }
      i := i + 1;
    }
    TakeAll(steps);
    SortPermutes(poll.steps, StepLe);
    PermutationMembers(poll.steps, steps);
  }

  lemma RequestsGrow(polls: seq<Poll>, n: nat)
    requires n < |polls|
    ensures Requests(polls[..n + 1]) == Requests(polls[..n]) + Requested(polls[n])
  {
    TakeMore(polls, n);
  }

  // ---------------------------------------------------------------------------
  // What the lifecycle allows between two polls

  /** The statuses a step can show later, however many moves are missed. */
  predicate Later(from: Status, to: Status) {
    || from == to
    || (Is(from, Pending) && (Is(to, Running) || Is(to, Success) || Is(to, Failed) || Is(to, Canceled)))
    || (Is(from, Running) && (Is(to, Success) || Is(to, Failed) || Is(to, Canceled)))
  }

  lemma {:induction false} PathLater(path: seq<Status>)
    requires MovesAlong(path)
    ensures Later(path[0], path[|path| - 1])
    decreases |path|
  {
    if |path| > 1 {
      var rest := path[1..];
      assert MovesAlong(rest) by {
        forall i | 0 <= i < |rest| - 1 ensures StepMoves(rest[i], rest[i + 1]) {
          assert StepMoves(path[i + 1], path[i + 2]);
        }
      }
      PathLater(rest);
      assert StepMoves(path[0], path[1]);
    }
  }

  lemma ReachesLater(from: Status, to: Status)
    requires Reaches(from, to)
    ensures Later(from, to)
  {
    var path :| MovesAlong(path) && path[0] == from && path[|path| - 1] == to;
    PathLater(path);
  }

  /** What a poll shows of a step: nothing, or its status sorted by what the watch
      makes of it. */
  datatype Seen = Absent | Waiting | Active | Done(status: Status) | Other(status: Status)

  function Classify(status: Status): Seen {
    if Is(status, Pending) then Waiting
    else if Is(status, Running) then Active
    else if TerminalStatus(status) then Done(status)
    else Other(status)
  }

  lemma ClassifyInjective(a: Status, b: Status)
    ensures Classify(a) == Classify(b) <==> a == b
  {
  }

  /** The lifecycle, as far as the watch can tell. */
  predicate SeenLater(from: Seen, to: Seen) {
    from == to || (from.Waiting? && (to.Active? || to.Done?)) || (from.Active? && to.Done?)
  }

  lemma ClassifyLater(from: Status, to: Status)
    requires Reaches(from, to)
    ensures SeenLater(Classify(from), Classify(to))
  {
    ReachesLater(from, to);
  }

  // ---------------------------------------------------------------------------
  // What the events say about one step

  function MarkOf(e: WatchEvent, index: int): seq<Mark> {
    if e.StepStarted? && e.index == index then [Started]
    else if e.StepFinished? && e.index == index then [Finished]
    else []
  }

  /** The started and finished events of one step, in order. */
  function Marks(events: seq<WatchEvent>, index: int): seq<Mark> {
    if events == [] then [] else Marks(events[..|events| - 1], index) + MarkOf(events[|events| - 1], index)
  }

  lemma {:induction false} MarksConcat(a: seq<WatchEvent>, b: seq<WatchEvent>, index: int)
    ensures Marks(a + b, index) == Marks(a, index) + Marks(b, index)
    decreases |b|
  {
    if b == [] {
      assert a + b == a;
    } else {
      var front := b[..|b| - 1];
      assert (a + b)[..|a + b| - 1] == a + front;
      MarksConcat(a, front, index);
      ConcatAssoc(Marks(a, index), Marks(front, index), MarkOf(b[|b| - 1], index));
    }
  }

  ghost predicate DistinctSteps(steps: seq<StepSnapshot>) {
    forall i, j :: 0 <= i < j < |steps| ==> steps[i].index != steps[j].index
  }

  lemma {:induction false} LookupMeaning(steps: seq<StepSnapshot>)
    requires DistinctSteps(steps)
    ensures forall s <- steps :: s.index in LookupOf(steps) && LookupOf(steps)[s.index] == s
    ensures forall i <- LookupOf(steps) :: LookupOf(steps)[i] in steps && LookupOf(steps)[i].index == i
    decreases |steps|
  {
    if steps != [] {
      var front, last := steps[..|steps| - 1], steps[|steps| - 1];
      LookupMeaning(front);
      assert forall s <- front :: s.index != last.index;
      assert steps == front + [last];
    }
  }

  /** Sorting the steps does not change the table. */
  lemma LookupSorted(steps: seq<StepSnapshot>)
    requires DistinctSteps(steps)
    ensures DistinctSteps(SortSteps(steps)) && LookupOf(SortSteps(steps)) == LookupOf(steps)
  {
    var sorted := SortSteps(steps);
    SortPermutes(steps, StepLe);
    PermutationMembers(steps, sorted);
    DistinctAfterSort(steps);
    SameTable(steps, sorted);
  }

  lemma SameTable(a: seq<StepSnapshot>, b: seq<StepSnapshot>)
    requires DistinctSteps(a) && DistinctSteps(b) && forall s :: s in a <==> s in b
    ensures LookupOf(a) == LookupOf(b)
  {
    LookupMeaning(a);
    LookupMeaning(b);
    var x, y := LookupOf(a), LookupOf(b);
    forall i ensures i in x <==> i in y {
      if i in x { assert x[i] in b; }
      if i in y { assert y[i] in a; }
    }
    forall i | i in x ensures x[i] == y[i] {
      assert x[i] in b;
    }
  }

  lemma DistinctAfterSort(steps: seq<StepSnapshot>)
    requires DistinctSteps(steps)
    ensures DistinctSteps(SortSteps(steps))
  {
    var sorted := SortSteps(steps);
    SortPermutes(steps, StepLe);
    PermutationMembers(steps, sorted);
    forall i, j | 0 <= i < j < |sorted| ensures sorted[i].index != sorted[j].index {
      assert sorted[i] in steps && sorted[j] in steps;
      var k :| 0 <= k < |steps| && steps[k] == sorted[i];
      var l :| 0 <= l < |steps| && steps[l] == sorted[j];
      assert k != l by {
        DistinctMultiset(steps, sorted[i]);
        if sorted[i] == sorted[j] { OccursTwice(sorted, i, j); }
      }
      assert k < l || l < k;
    }
  }

  /** The marks a poll adds for a step, from what the previous poll showed of it (if
      there was one) and what this one shows. */
  function StepDiff(previous: Option<Seen>, current: Seen): seq<Mark> {
    var had := previous.Some? && !previous.value.Absent?;
    var changed := !had || previous.value != current;
    match current
    case Active => if changed then [Started] else []
    case Done(_) => if had && changed then [Finished] else []
    case Absent => []
    case Waiting => []
    case Other(_) => []
  }

  function SeenIn(table: map<int, StepSnapshot>, index: int): Seen {
    if index in table then Classify(table[index].status) else Absent
  }

  function Observed(poll: Poll, index: int): Seen { SeenIn(LookupOf(poll.steps), index) }

  lemma {:induction false} StepsMarks(table: Option<map<int, StepSnapshot>>, steps: seq<StepSnapshot>, index: int)
    requires DistinctSteps(steps)
    ensures Marks(StepsEvents(table, steps), index) ==
            if index in LookupOf(steps) then Marks(StepEvents(table, LookupOf(steps)[index]), index) else []
    decreases |steps|
  {
    if steps != [] {
      var front, last := steps[..|steps| - 1], steps[|steps| - 1];
      StepsMarks(table, front, index);
      MarksConcat(StepsEvents(table, front), StepEvents(table, last), index);
      LookupMeaning(front);
      LookupMeaning(steps);
      assert last in steps && forall s <- front :: s.index != last.index;
      OtherMarks(table, last, index);
    }
  }

  lemma OtherMarks(table: Option<map<int, StepSnapshot>>, step: StepSnapshot, index: int)
    ensures step.index != index ==> Marks(StepEvents(table, step), index) == []
    ensures |StepEvents(table, step)| <= 1
  {
    var events := StepEvents(table, step);
    if events != [] { assert events[..|events| - 1] == []; }
  }

  function MarkSeq(m: Option<Mark>): seq<Mark> { if m.Some? then [m.value] else [] }

  lemma ChangeMarks(table: Option<map<int, StepSnapshot>>, step: StepSnapshot)
    ensures Marks(StepEvents(table, step), step.index) == MarkSeq(Change(table, step))
  {
    var events := StepEvents(table, step);
    if events != [] { assert events[..|events| - 1] == []; }
  }

  lemma JudgeIsDiff(previous: Option<Seen>, current: Seen)
    requires !current.Absent?
    ensures var had := previous.Some? && !previous.value.Absent?;
            MarkSeq(Judge(current.Active?, had, !had || previous.value != current, current.Done?)) == StepDiff(previous, current)
  {
  }

  lemma ClassifyCases(status: Status)
    ensures var c := Classify(status);
            !c.Absent? && (c.Active? <==> Is(status, Running)) && (c.Done? <==> TerminalStatus(status))
  {
  }

  /** The string comparisons of the loop see exactly what the classification shows. */
  lemma ChangeIsDiff(table: Option<map<int, StepSnapshot>>, step: StepSnapshot)
    ensures MarkSeq(Change(table, step)) ==
            StepDiff(if table.None? then None else Some(SeenIn(table.value, step.index)), Classify(step.status))
  {
    var previous := if table.None? then None else Some(SeenIn(table.value, step.index));
    var had := table.Some? && step.index in table.value;
    ClassifyCases(step.status);
    if had {
      var before := table.value[step.index].status;
      ClassifyCases(before);
      ClassifyInjective(before, step.status);
    }
    JudgeIsDiff(previous, Classify(step.status));
  }

  ghost predicate DistinctPoll(p: Poll) { DistinctSteps(p.steps) }

  /** The marks of one poll depend only on the two statuses of the step. */
  lemma DiffMarks(previous: Option<Poll>, poll: Poll, index: int)
    requires DistinctPoll(poll) && (previous.Some? ==> DistinctPoll(previous.value))
    ensures Marks(Diff(previous, poll), index) ==
            StepDiff(if previous.None? then None else Some(Observed(previous.value, index)), Observed(poll, index))
  {
    var sorted := SortSteps(poll.steps);
    var table := TableOf(previous);
    LookupSorted(poll.steps);
    if previous.Some? { LookupSorted(previous.value.steps); }
    StepsMarks(table, sorted, index);
    LookupMeaning(sorted);
    FramedMarks(table, StatusOf(previous), poll, index);
    if index in LookupOf(sorted) {
      ChangeMarks(table, LookupOf(sorted)[index]);
      ChangeIsDiff(table, LookupOf(sorted)[index]);
    }
  }

  /** Build events carry no marks. */
  lemma FramedMarks(table: Option<map<int, StepSnapshot>>, status: Option<Status>, poll: Poll, index: int)
    ensures Marks(DiffFrom(table, status, poll), index) == Marks(StepsEvents(table, SortSteps(poll.steps)), index)
  {
    var a, b, c := Opening(status, poll), StepsEvents(table, SortSteps(poll.steps)), Ending(poll);
    NoMarks(a, index);
    NoMarks(c, index);
    MarksBetween(a, b, c, index);
  }

  lemma NoMarks(events: seq<WatchEvent>, index: int)
    requires |events| <= 1 && forall e <- events :: e.BuildStatus? || e.Terminal?
    ensures Marks(events, index) == []
  {
    if events != [] { assert events[..|events| - 1] == [] && events[0] in events; }
  }

  lemma MarksBetween(a: seq<WatchEvent>, b: seq<WatchEvent>, c: seq<WatchEvent>, index: int)
    requires Marks(a, index) == [] && Marks(c, index) == []
    ensures Marks(a + b + c, index) == Marks(b, index)
  {
    MarksConcat(a, b, index);
    MarksConcat(a + b, c, index);
  }

  // ---------------------------------------------------------------------------
  // One step over all polls

  function Observations(polls: seq<Poll>, index: int): seq<Seen> {
    seq(|polls|, i requires 0 <= i < |polls| => Observed(polls[i], index))
  }

  function PerStep(observed: seq<Seen>): seq<Mark> {
    if observed == [] then []
    else
      var front := observed[..|observed| - 1];
      PerStep(front) + StepDiff(if front == [] then None else Some(front[|front| - 1]), observed[|observed| - 1])
  }

  lemma {:induction false} PrintedMarks(polls: seq<Poll>, index: int)
    requires forall p <- polls :: DistinctPoll(p)
    ensures Marks(Printed(polls), index) == PerStep(Observations(polls, index))
    decreases |polls|
  {
    if polls != [] {
      FrontAndLast(polls);
      PrintedMarks(polls[..|polls| - 1], index);
      PrintedMarksStep(polls[..|polls| - 1], polls[|polls| - 1], index);
    }
  }

  lemma PrintedMarksStep(front: seq<Poll>, last: Poll, index: int)
    requires DistinctPoll(last) && forall p <- front :: DistinctPoll(p)
    requires Marks(Printed(front), index) == PerStep(Observations(front, index))
    ensures Marks(Printed(front + [last]), index) == PerStep(Observations(front + [last], index))
  {
    PrintedMore(front, last);
    MarksConcat(Printed(front), Diff(LastOf(front), last), index);
    MarksOfLast(front, last, index);
    ObservationsMore(front, last, index);
    PerStepMore(Observations(front, index), Observed(last, index));
  }

  lemma PrintedMore(front: seq<Poll>, last: Poll)
    ensures Printed(front + [last]) == Printed(front) + Diff(LastOf(front), last)
  {
    AppendFront(front, last);
  }

  lemma MarksOfLast(front: seq<Poll>, last: Poll, index: int)
    requires DistinctPoll(last) && forall p <- front :: DistinctPoll(p)
    ensures Marks(Diff(LastOf(front), last), index) ==
            StepDiff(if front == [] then None else Some(Observed(front[|front| - 1], index)), Observed(last, index))
  {
    if front != [] { assert front[|front| - 1] in front; }
    DiffMarks(LastOf(front), last, index);
  }

  lemma ObservationsMore(front: seq<Poll>, last: Poll, index: int)
    ensures Observations(front + [last], index) == Observations(front, index) + [Observed(last, index)]
    ensures front != [] ==> Observations(front, index)[|front| - 1] == Observed(front[|front| - 1], index)
  {
  }

  lemma PerStepMore(front: seq<Seen>, current: Seen)
    ensures PerStep(front + [current]) ==
            PerStep(front) + StepDiff(if front == [] then None else Some(front[|front| - 1]), current)
  {
    AppendFront(front, current);
  }

  /** Once seen, a step stays listed and only moves along its lifecycle. */
  ghost predicate Lawful(observed: seq<Seen>) {
    forall i :: 0 <= i < |observed| - 1 && !observed[i].Absent? ==> SeenLater(observed[i], observed[i + 1])
  }

  ghost predicate SeenRunning(observed: seq<Seen>) { Active in observed }

  predicate Unfinished(s: Seen) { s.Waiting? || s.Active? || s.Other? }

  /** Some poll saw the step unfinished and a later one saw it finished. */
  ghost predicate SeenFinish(observed: seq<Seen>) {
    exists i, j :: 0 <= i < j < |observed| && Unfinished(observed[i]) && observed[j].Done?
  }

  lemma {:induction false} LaterOverPolls(observed: seq<Seen>, i: nat, j: nat)
    requires Lawful(observed) && i <= j < |observed| && !observed[i].Absent?
    ensures SeenLater(observed[i], observed[j]) && !observed[j].Absent?
    decreases j - i
  {
    if i < j { LaterOverPolls(observed, i, j - 1); }
  }

  function Summary(running: bool, finish: bool): seq<Mark> {
    (if running then [Started] else []) + (if finish then [Finished] else [])
  }

  /** What the last poll adds to what was seen before. */
  lemma SeenMore(front: seq<Seen>, current: Seen)
    ensures SeenRunning(front + [current]) <==> SeenRunning(front) || current == Active
    ensures SeenFinish(front) ==> SeenFinish(front + [current])
    ensures !current.Done? ==> (SeenFinish(front + [current]) <==> SeenFinish(front))
  {
    var all := front + [current];
    if SeenFinish(front) {
      var i, j :| 0 <= i < j < |front| && Unfinished(front[i]) && front[j].Done?;
      assert all[i] == front[i] && all[j] == front[j];
    }
    if SeenFinish(all) && !current.Done? {
      var i, j :| 0 <= i < j < |all| && Unfinished(all[i]) && all[j].Done?;
      assert j < |front| && all[i] == front[i] && all[j] == front[j];
    }
  }

  /** Before the first poll that shows a step running, nothing was printed about it. */
  lemma NewlyRunning(observed: seq<Seen>)
    requires Lawful(observed) && observed != [] && observed[|observed| - 1] == Active
    requires |observed| > 1 ==> observed[|observed| - 2] != Active
    ensures !SeenRunning(observed[..|observed| - 1]) && !SeenFinish(observed[..|observed| - 1])
  {
    var n := |observed| - 1;
    forall i | 0 <= i < n ensures observed[i] != Active && !observed[i].Done? {
      if !observed[i].Absent? {
        LaterOverPolls(observed, i, n - 1);
        LaterOverPolls(observed, n - 1, n);
      }
    }
  }

  /** A step seen unfinished in one poll and finished in the next finishes there. */
  lemma NewlyFinished(observed: seq<Seen>)
    requires Lawful(observed) && |observed| > 1 && observed[|observed| - 1].Done?
    requires !observed[|observed| - 2].Absent? && observed[|observed| - 2] != observed[|observed| - 1]
    ensures SeenFinish(observed) && !SeenFinish(observed[..|observed| - 1])
  {
    var n := |observed| - 1;
    LaterOverPolls(observed, n - 1, n);
    assert Unfinished(observed[n - 1]) && observed[n].Done?;
    forall j | 0 <= j < n ensures !observed[j].Done? {
      if observed[j].Done? { LaterOverPolls(observed, j, n - 1); }
    }
  }

  /** A poll that shows a finished step as before, or for the first time, adds nothing. */
  lemma StillFinished(observed: seq<Seen>)
    requires Lawful(observed) && observed != [] && !observed[|observed| - 1].Absent?
    requires |observed| == 1 || observed[|observed| - 2].Absent? || observed[|observed| - 2] == observed[|observed| - 1]
    ensures SeenFinish(observed) ==> SeenFinish(observed[..|observed| - 1])
  {
    var n := |observed| - 1;
    if SeenFinish(observed) {
      var i, j :| 0 <= i < j < |observed| && Unfinished(observed[i]) && observed[j].Done?;
      LaterOverPolls(observed, i, n - 1);
      var front := observed[..n];
      var k := if j < n then j else n - 1;
      assert front[i] == observed[i] && front[k] == observed[k];
    }
  }

  /** Over any polls in which a step stays listed and follows its lifecycle, its events
      are exactly: started if some poll saw it running, then finished if it was seen
      unfinished and later finished. */
  lemma {:induction false} PerStepExact(observed: seq<Seen>)
    requires Lawful(observed)
    ensures PerStep(observed) == Summary(SeenRunning(observed), SeenFinish(observed))
    decreases |observed|
  {
    if observed != [] {
      var n := |observed| - 1;
      var front, current := observed[..n], observed[n];
      assert Lawful(front);
      PerStepExact(front);
      TakeMore(observed, n);
      TakeAll(observed);
      LastStepExact(observed, front, current);
      PerStepMore(front, current);
      SummaryMore(SeenRunning(front), SeenFinish(front));
    }
  }

  /** What the last poll prints is what it newly shows. */
  lemma LastStepExact(observed: seq<Seen>, front: seq<Seen>, current: Seen)
    requires Lawful(observed) && observed == front + [current]
    ensures var marks := StepDiff(if front == [] then None else Some(front[|front| - 1]), current);
            var running, finish := SeenRunning(front), SeenFinish(front);
            if SeenRunning(observed) != running then marks == [Started] && SeenRunning(observed) && !finish && !SeenFinish(observed)
            else if SeenFinish(observed) != finish then marks == [Finished] && SeenFinish(observed)
            else marks == []
  {
    var n := |front|;
    SeenMore(front, current);
    assert observed[..n] == front;
    assert n > 0 ==> observed[n - 1] == front[n - 1];
    if current == Active {
      if n == 0 || observed[n - 1] != current { NewlyRunning(observed); }
      else { assert front[n - 1] in front; }
    } else if current.Done? {
      if n > 0 && !observed[n - 1].Absent? && observed[n - 1] != current { NewlyFinished(observed); }
      else { StillFinished(observed); }
    }
  }

  lemma SummaryMore(running: bool, finish: bool)
    ensures Summary(running, finish) + [] == Summary(running, finish)
    ensures !running && !finish ==> Summary(running, finish) + [Started] == Summary(true, false)
    ensures !finish ==> Summary(running, finish) + [Finished] == Summary(running, true)
  {
  }

  /** Step indices are distinct in every poll, and between two polls the step with this
      index stays listed and makes any number of lifecycle moves. */
  ghost predicate LawfulPolls(polls: seq<Poll>, index: int) {
    && (forall p <- polls :: DistinctPoll(p))
    && (forall i :: 0 <= i < |polls| - 1 && index in LookupOf(polls[i].steps) ==>
          && index in LookupOf(polls[i + 1].steps)
          && Reaches(LookupOf(polls[i].steps)[index].status, LookupOf(polls[i + 1].steps)[index].status))
  }

  lemma LawfulObservations(polls: seq<Poll>, index: int)
    requires LawfulPolls(polls, index)
    ensures Lawful(Observations(polls, index))
  {
    var observed := Observations(polls, index);
    forall i | 0 <= i < |observed| - 1 && !observed[i].Absent?
      ensures SeenLater(observed[i], observed[i + 1])
    {
      ClassifyLater(LookupOf(polls[i].steps)[index].status, LookupOf(polls[i + 1].steps)[index].status);
    }
  }

  /** The events printed about a step, over any run of polls. */
  lemma StepReported(polls: seq<Poll>, index: int)
    requires LawfulPolls(polls, index)
    ensures Marks(Printed(polls), index) ==
            Summary(SeenRunning(Observations(polls, index)), SeenFinish(Observations(polls, index)))
  {
    LawfulObservations(polls, index);
    PrintedMarks(polls, index);
    PerStepExact(Observations(polls, index));
  }

  // ---------------------------------------------------------------------------
  // Any polls: exactly when a step is reported once

  /** The step is found running, then not, then running again. */
  ghost predicate Resumes(observed: seq<Seen>) {
    exists i, j, k :: 0 <= i < j < k < |observed| && observed[i].Active? && !observed[j].Active? && observed[k].Active?
  }

  /** The step is found finished and had another status one poll before. */
  predicate Finishes(observed: seq<Seen>, i: int) {
    0 < i < |observed| && observed[i].Done? && !observed[i - 1].Absent? && observed[i - 1] != observed[i]
  }

  ghost predicate RunsSome(observed: seq<Seen>) {
    exists i :: 0 <= i < |observed| && observed[i].Active?
  }

  ghost predicate FinishesSome(observed: seq<Seen>) {
    exists i :: Finishes(observed, i)
  }

  ghost predicate FinishesTwice(observed: seq<Seen>) {
    exists i, j :: i < j && Finishes(observed, i) && Finishes(observed, j)
  }

  ghost predicate RunsAfterFinish(observed: seq<Seen>) {
    exists i, j :: i < j < |observed| && Finishes(observed, i) && observed[j].Active?
  }

  ghost predicate ReportsInOrder(observed: seq<Seen>) {
    !Resumes(observed) && !FinishesTwice(observed) && !RunsAfterFinish(observed)
  }

  /** At most one started and one finished mark, in that order. */
  predicate InOrder(marks: seq<Mark>) {
    marks == [] || marks == [Started] || marks == [Finished] || marks == [Started, Finished]
  }

  function LastMarks(front: seq<Seen>, current: Seen): seq<Mark> {
    StepDiff(if front == [] then None else Some(front[|front| - 1]), current)
  }

  lemma LastMarksMeaning(front: seq<Seen>, current: Seen)
    ensures LastMarks(front, current) ==
            if current.Active? && (front == [] || !front[|front| - 1].Active?) then [Started]
            else if Finishes(front + [current], |front|) then [Finished] else []
    ensures forall i :: i < |front| ==> (Finishes(front + [current], i) <==> Finishes(front, i))
  {
    var all, n := front + [current], |front|;
    assert forall i :: 0 <= i < n ==> all[i] == front[i];
    assert all[n] == current;
  }

  /** Marks are printed for a step at all when it was seen running, or seen finishing. */
  ghost predicate Shows(marks: seq<Mark>, observed: seq<Seen>) {
    (Started in marks <==> RunsSome(observed)) && (Finished in marks <==> FinishesSome(observed))
  }

  lemma {:induction false} MarksSeen(observed: seq<Seen>)
    ensures Shows(PerStep(observed), observed)
    decreases |observed|
  {
    if observed != [] {
      var n := |observed| - 1;
      FrontAndLast(observed);
      MarksSeen(observed[..n]);
      SeenStep(observed[..n], observed[n]);
    }
  }

  lemma SeenStep(front: seq<Seen>, current: Seen)
    requires Shows(PerStep(front), front)
    ensures Shows(PerStep(front + [current]), front + [current])
  {
    PerStepMore(front, current);
    LastMarksMeaning(front, current);
    var all, n := front + [current], |front|;
    assert forall i :: 0 <= i < n ==> all[i] == front[i];
    assert RunsSome(all) <==> RunsSome(front) || current.Active? by {
      if i :| 0 <= i < n && front[i].Active? { assert all[i].Active?; }
      assert all[n] == current;
    }
    assert FinishesSome(all) <==> FinishesSome(front) || Finishes(all, n) by {
      if i :| Finishes(front, i) { assert Finishes(all, i); }
    }
    if current.Active? && n > 0 && front[n - 1].Active? { assert RunsSome(front); }
  }

  lemma ResumesMore(front: seq<Seen>, current: Seen)
    ensures Resumes(front + [current]) <==>
            Resumes(front) || (current.Active? && front != [] && !front[|front| - 1].Active?
                               && RunsSome(front))
  {
    var all, n := front + [current], |front|;
    assert forall i :: 0 <= i < n ==> all[i] == front[i];
    if Resumes(all) && !Resumes(front) {
      var i, j, k :| 0 <= i < j < k < |all| && all[i].Active? && !all[j].Active? && all[k].Active?;
      assert k == n && front[i].Active? && !front[j].Active?;
      assert front[n - 1].Active? ==> j < n - 1;
    }
    if i, j, k :| 0 <= i < j < k < n && front[i].Active? && !front[j].Active? && front[k].Active? {
      assert all[i].Active? && !all[j].Active? && all[k].Active?;
    }
    if i :| 0 <= i < n && front[i].Active? {
      if current.Active? && !front[n - 1].Active? {
        assert i < n - 1 && all[i].Active? && !all[n - 1].Active? && all[n].Active?;
      }
    }
  }

  lemma FinishesTwiceMore(front: seq<Seen>, current: Seen)
    ensures FinishesTwice(front + [current]) <==>
            FinishesTwice(front) || (Finishes(front + [current], |front|) && FinishesSome(front))
  {
    LastMarksMeaning(front, current);
    var all, n := front + [current], |front|;
    if FinishesTwice(all) {
      var i, j :| i < j && Finishes(all, i) && Finishes(all, j);
      assert Finishes(front, i);
      if j < n { assert Finishes(front, j); }
    }
    if i, j :| i < j && Finishes(front, i) && Finishes(front, j) {
      assert Finishes(all, i) && Finishes(all, j);
    }
    if i :| Finishes(front, i) && Finishes(all, n) {
      assert Finishes(all, i);
    }
  }

  lemma RunsAfterFinishMore(front: seq<Seen>, current: Seen)
    ensures RunsAfterFinish(front + [current]) <==>
            RunsAfterFinish(front) || (current.Active? && FinishesSome(front))
  {
    LastMarksMeaning(front, current);
    var all, n := front + [current], |front|;
    assert forall i :: 0 <= i < n ==> all[i] == front[i];
    if RunsAfterFinish(all) {
      var i, j :| i < j < |all| && Finishes(all, i) && all[j].Active?;
      assert Finishes(front, i);
    }
    if i, j :| i < j < n && Finishes(front, i) && front[j].Active? {
      assert Finishes(all, i) && all[j].Active?;
    }
    if i :| Finishes(front, i) && current.Active? {
      assert Finishes(all, i) && all[n].Active?;
    }
  }

  /** Over any polls, lawful or not: a step gets at most one started mark exactly when it
      was never found running again after being found otherwise, and at most one finished
      mark exactly when it did not finish twice. */
  lemma {:induction false} MarkedOnceExactly(observed: seq<Seen>)
    ensures MarkedOnce(PerStep(observed), observed)
    decreases |observed|
  {
    if observed != [] {
      var n := |observed| - 1;
      FrontAndLast(observed);
      MarkedOnceExactly(observed[..n]);
      OnceStep(observed[..n], observed[n]);
    }
  }

  ghost predicate MarkedOnce(marks: seq<Mark>, observed: seq<Seen>) {
    && (multiset(marks)[Started] <= 1 <==> !Resumes(observed))
    && (multiset(marks)[Finished] <= 1 <==> !FinishesTwice(observed))
  }

  lemma OnceStep(front: seq<Seen>, current: Seen)
    requires MarkedOnce(PerStep(front), front)
    ensures MarkedOnce(PerStep(front + [current]), front + [current])
  {
    var marks := PerStep(front);
    PerStepMore(front, current);
    MarksSeen(front);
    LastMarksMeaning(front, current);
    ResumesMore(front, current);
    FinishesTwiceMore(front, current);
    assert Started in marks <==> multiset(marks)[Started] > 0;
    assert Finished in marks <==> multiset(marks)[Finished] > 0;
  }

  lemma InOrderMore(marks: seq<Mark>)
    ensures InOrder(marks + [Started]) <==> InOrder(marks) && Started !in marks && Finished !in marks
    ensures InOrder(marks + [Finished]) <==> InOrder(marks) && Finished !in marks
  {
    if |marks| > 0 { assert marks[0] == Started || marks[0] == Finished; }
    assert forall m <- marks :: m == Started || m == Finished;
    if InOrder(marks + [Started]) { assert (marks + [Started])[|marks|] == Started; }
    if InOrder(marks + [Finished]) {
      assert (marks + [Finished])[|marks|] == Finished;
      assert |marks| == 1 ==> (marks + [Finished])[0] == marks[0];
    }
  }

  /** The marks of a step are at most started, then finished, exactly when it was never
      found running again, did not finish twice and did not run after it finished. */
  lemma {:induction false} MarksInOrderExactly(observed: seq<Seen>)
    ensures InOrder(PerStep(observed)) <==> ReportsInOrder(observed)
    decreases |observed|
  {
    if observed == [] {
      NothingObserved();
    } else {
      var n := |observed| - 1;
      FrontAndLast(observed);
      MarksInOrderExactly(observed[..n]);
      OrderStep(observed[..n], observed[n]);
    }
  }

  lemma NothingObserved()
    ensures ReportsInOrder([])
  {
  }

  lemma OrderStep(front: seq<Seen>, current: Seen)
    requires InOrder(PerStep(front)) <==> ReportsInOrder(front)
    ensures InOrder(PerStep(front + [current])) <==> ReportsInOrder(front + [current])
  {
    PerStepMore(front, current);
    MarksSeen(front);
    LastMarksMeaning(front, current);
    ResumesMore(front, current);
    FinishesTwiceMore(front, current);
    RunsAfterFinishMore(front, current);
    InOrderMore(PerStep(front));
    if LastMarks(front, current) == [] {
      assert PerStep(front) + [] == PerStep(front);
      if current.Active? { RunningStays(front, current); }
    }
  }

  /** A step found running that was running one poll before changes none of this. */
  lemma RunningStays(front: seq<Seen>, current: Seen)
    requires current.Active? && front != [] && front[|front| - 1].Active?
    ensures FinishesSome(front) ==> RunsAfterFinish(front)
  {
    if i :| Finishes(front, i) {
      assert i < |front| - 1 && front[|front| - 1].Active?;
    }
  }

  /** The same of the printed events, for polls whose step indices are distinct. */
  lemma ReportedOnceExactly(polls: seq<Poll>, index: int)
    requires forall p <- polls :: DistinctPoll(p)
    ensures var marks, observed := Marks(Printed(polls), index), Observations(polls, index);
            MarkedOnce(marks, observed) && (InOrder(marks) <==> ReportsInOrder(observed))
  {
    PrintedMarks(polls, index);
    MarkedOnceExactly(Observations(polls, index));
    MarksInOrderExactly(Observations(polls, index));
  }

  /** A running step that one poll does not list is reported as started twice. */
  lemma VanishingStepStartsTwice(step: StepSnapshot, build: Status, logs: bool)
    requires Is(step.status, Running)
    ensures var shown, hidden := Poll(build, [step], logs), Poll(build, [], logs);
            Marks(Printed([shown, hidden, shown]), step.index) == [Started, Started]
  {
    var shown, hidden := Poll(build, [step], logs), Poll(build, [], logs);
    var polls := [shown, hidden, shown];
    ShowsActive(step, build, logs);
    PrintedMarks(polls, step.index);
    ThreeObservations(shown, hidden, step.index);
    ActiveTwice();
  }

  lemma ShowsActive(step: StepSnapshot, build: Status, logs: bool)
    requires Is(step.status, Running)
    ensures Observed(Poll(build, [step], logs), step.index) == Active
    ensures Observed(Poll(build, [], logs), step.index) == Absent
  {
    assert [step][..0] == [];
  }

  lemma ThreeObservations(a: Poll, b: Poll, index: int)
    requires Observed(a, index) == Active && Observed(b, index) == Absent
    ensures Observations([a, b, a], index) == [Active, Absent, Active]
  {
  }

  lemma ActiveTwice()
    ensures PerStep([Active, Absent, Active]) == [Started, Started]
  {
    var a, b, c := [Active, Absent, Active], [Active, Absent], [Active];
    assert a[..2] == b && b[..1] == c && c[..0] == [];
    assert PerStep(c) == [Started] && PerStep(b) == [Started];
  }

  // ---------------------------------------------------------------------------
  // Build status and the terminal event

  function Deduplicated<T(==)>(statuses: seq<T>): seq<T> {
    if statuses == [] then []
    else
      var front, last := statuses[..|statuses| - 1], statuses[|statuses| - 1];
      if front != [] && front[|front| - 1] == last then Deduplicated(front) else Deduplicated(front) + [last]
  }

  function Statuses(polls: seq<Poll>): seq<Status> {
    seq(|polls|, i requires 0 <= i < |polls| => polls[i].buildStatus)
  }

  function TrimAll(s: seq<Status>): seq<Status> {
    seq(|s|, i requires 0 <= i < |s| => Trim(s[i]))
  }

  /** The build-status events, in order. */
  function BuildStatuses(events: seq<WatchEvent>): seq<Status> {
    if events == [] then []
    else
      var last := events[|events| - 1];
      BuildStatuses(events[..|events| - 1]) + (if last.BuildStatus? then [last.status] else [])
  }

  lemma {:induction false} BuildStatusesConcat(a: seq<WatchEvent>, b: seq<WatchEvent>)
    ensures BuildStatuses(a + b) == BuildStatuses(a) + BuildStatuses(b)
    decreases |b|
  {
    if b == [] {
      assert a + b == a;
    } else {
      var front, last := b[..|b| - 1], b[|b| - 1];
      assert (a + b)[..|a + b| - 1] == a + front;
      BuildStatusesConcat(a, front);
      ConcatAssoc(BuildStatuses(a), BuildStatuses(front), if last.BuildStatus? then [last.status] else []);
    }
  }

  lemma {:induction false} NoBuildStatuses(events: seq<WatchEvent>)
    requires forall e <- events :: !e.BuildStatus?
    ensures BuildStatuses(events) == []
    decreases |events|
  {
    if events != [] {
      assert events[|events| - 1] in events;
      NoBuildStatuses(events[..|events| - 1]);
    }
  }

  lemma {:induction false} StepsEventsKinds(table: Option<map<int, StepSnapshot>>, steps: seq<StepSnapshot>)
    ensures forall e <- StepsEvents(table, steps) :: e.StepStarted? || e.StepFinished?
    decreases |steps|
  {
    if steps != [] { StepsEventsKinds(table, steps[..|steps| - 1]); }
  }

  lemma StatusesBetween(a: seq<WatchEvent>, b: seq<WatchEvent>, c: seq<WatchEvent>)
    requires forall e <- b + c :: !e.BuildStatus?
    ensures BuildStatuses(a + b + c) == BuildStatuses(a)
  {
    NoBuildStatuses(b + c);
    BuildStatusesConcat(a, b + c);
    ConcatAssoc(a, b, c);
  }

  lemma OneStatus(status: Status)
    ensures BuildStatuses([BuildStatus(status)]) == [status]
  {
    assert [BuildStatus(status)][..0] == [];
  }

  lemma DiffBuildStatuses(table: Option<map<int, StepSnapshot>>, status: Option<Status>, poll: Poll)
    ensures BuildStatuses(DiffFrom(table, status, poll)) ==
            if status != Some(poll.buildStatus) then [Trim(poll.buildStatus)] else []
  {
    var a, b, c := Opening(status, poll), StepsEvents(table, SortSteps(poll.steps)), Ending(poll);
    StepsEventsKinds(table, SortSteps(poll.steps));
    StatusesBetween(a, b, c);
    OneStatus(Trim(poll.buildStatus));
  }

  /** The build-status events are the polled statuses without consecutive repeats. */
  lemma {:induction false} BuildStatusesReported(polls: seq<Poll>)
    ensures BuildStatuses(Printed(polls)) == TrimAll(Deduplicated(Statuses(polls)))
    decreases |polls|
  {
    if polls != [] {
      var n := |polls| - 1;
      var front, last := polls[..n], polls[n];
      assert polls == front + [last];
      BuildStatusesReported(front);
      BuildStatusesConcat(Printed(front), Diff(LastOf(front), last));
      DiffBuildStatuses(TableOf(LastOf(front)), StatusOf(LastOf(front)), last);
      StatusesMore(front, last);
      DeduplicatedMore(Statuses(front), last.buildStatus);
      TrimAllMore(Deduplicated(Statuses(front)), last.buildStatus);
    }
  }

  lemma StatusesMore(front: seq<Poll>, last: Poll)
    ensures Statuses(front + [last]) == Statuses(front) + [last.buildStatus]
    ensures front != [] ==> Statuses(front)[|front| - 1] == front[|front| - 1].buildStatus
  {
  }

  lemma DeduplicatedMore<T>(statuses: seq<T>, x: T)
    ensures Deduplicated(statuses + [x]) ==
            if statuses != [] && statuses[|statuses| - 1] == x then Deduplicated(statuses) else Deduplicated(statuses) + [x]
  {
    AppendFront(statuses, x);
  }

  lemma TrimAllMore(s: seq<Status>, x: Status)
    ensures TrimAll(s + [x]) == TrimAll(s) + [Trim(x)]
  {
  }

  /** Only the last event may be terminal. */
  ghost predicate TerminalOnlyLast(events: seq<WatchEvent>) {
    forall i :: 0 <= i < |events| - 1 ==> !events[i].Terminal?
  }

  ghost predicate EndsTerminal(events: seq<WatchEvent>) {
    events != [] && events[|events| - 1].Terminal?
  }

  lemma TerminalAfter(a: seq<WatchEvent>, b: seq<WatchEvent>)
    requires TerminalOnlyLast(a) && !EndsTerminal(a) && TerminalOnlyLast(b)
    ensures TerminalOnlyLast(a + b) && (EndsTerminal(a + b) <==> EndsTerminal(b))
    ensures EndsTerminal(b) ==> (a + b)[|a + b| - 1] == b[|b| - 1]
  {
    var all := a + b;
    forall i | 0 <= i < |all| - 1 ensures !all[i].Terminal? {
      if i < |a| { assert all[i] == a[i]; } else { assert all[i] == b[i - |a|]; }
    }
  }

  lemma NoTerminal(events: seq<WatchEvent>)
    requires forall e <- events :: !e.Terminal?
    ensures TerminalOnlyLast(events) && !EndsTerminal(events)
  {
    forall i | 0 <= i < |events| ensures !events[i].Terminal? { assert events[i] in events; }
  }

  lemma DiffTerminal(table: Option<map<int, StepSnapshot>>, status: Option<Status>, poll: Poll)
    ensures var d := DiffFrom(table, status, poll);
            && TerminalOnlyLast(d)
            && (EndsTerminal(d) <==> TerminalStatus(poll.buildStatus))
            && (EndsTerminal(d) ==> d[|d| - 1] == Terminal(Trim(poll.buildStatus), ExitCode(poll.buildStatus)))
  {
    var a, b, c := Opening(status, poll), StepsEvents(table, SortSteps(poll.steps)), Ending(poll);
    StepsEventsKinds(table, SortSteps(poll.steps));
    OpeningKinds(status, poll);
    EndingShape(poll);
    FramedTerminal(a, b, c);
  }

  lemma OpeningKinds(status: Option<Status>, poll: Poll)
    ensures forall e <- Opening(status, poll) :: e.BuildStatus?
  {
  }

  lemma EndingShape(poll: Poll)
    ensures var c := Ending(poll);
            && TerminalOnlyLast(c) && (EndsTerminal(c) <==> TerminalStatus(poll.buildStatus))
            && (EndsTerminal(c) ==> c[|c| - 1] == Terminal(Trim(poll.buildStatus), ExitCode(poll.buildStatus)))
  {
  }

  lemma FramedTerminal(a: seq<WatchEvent>, b: seq<WatchEvent>, c: seq<WatchEvent>)
    requires (forall e <- a :: !e.Terminal?) && (forall e <- b :: !e.Terminal?) && TerminalOnlyLast(c)
    ensures TerminalOnlyLast(a + b + c) && (EndsTerminal(a + b + c) <==> EndsTerminal(c))
    ensures EndsTerminal(c) ==> (a + b + c)[|a + b + c| - 1] == c[|c| - 1]
  {
    NoTerminal(a + b);
    TerminalAfter(a + b, c);
  }

  /** The terminal event: printed once, as the last event, exactly when the last poll
      found the build terminal, with code zero exactly on success. */
  lemma {:induction false} TerminalReported(polls: seq<Poll>)
    requires Performed(polls)
    ensures var events := Printed(polls);
            && TerminalOnlyLast(events)
            && (EndsTerminal(events) <==> polls != [] && TerminalStatus(polls[|polls| - 1].buildStatus))
            && (EndsTerminal(events) ==>
                  && events[|events| - 1].status == Trim(polls[|polls| - 1].buildStatus)
                  && (events[|events| - 1].code == 0 <==> polls[|polls| - 1].buildStatus.word.Success?))
    decreases |polls|
  {
    if polls != [] {
      var n := |polls| - 1;
      var front, last := polls[..n], polls[n];
      assert n > 0 ==> front[n - 1] == polls[n - 1];
      TerminalReported(front);
      DiffTerminal(TableOf(LastOf(front)), StatusOf(LastOf(front)), last);
      TerminalAfter(Printed(front), Diff(LastOf(front), last));
    }
  }
}
