/** The live log of one step, end to end: chunks are appended to the stored log, the
    endpoint polls the log and writes frames, the network delivers any prefix of the
    bytes, and the client reads lines, prints chunks, keeps its cursor and
    reconnects. Steps of the parties interleave freely. */
module LogWatch {
  import opened Text
  import opened EventStream
  import opened EventFrames

  /** The most chunks the endpoint asks for in one poll. */
  const POLL_LIMIT: nat := 500

  /** One response in progress: what had been printed and the cursor when it was
      requested, the chunks written so far, the closing frame if it was written, and
      how many lines the client has read. */
  datatype Link =
    | Idle
    | Open(base: seq<Chunk>, cursor: int, sent: seq<Chunk>, closing: seq<string>, read: nat, reader: Reader)
    | Stopped

  /** The stored log of the step, the client's cursor, what it has printed, and its
      connection. */
  datatype State = State(log: seq<Chunk>, after: int, emitted: seq<Chunk>, link: Link)

  datatype Action =
    | Append(chunk: Chunk)                // a worker stores a chunk
    | Connect                             // the client opens a stream after its cursor
    | Poll                                // the endpoint writes newly stored chunks
    | Close(closing: seq<string>)         // the endpoint writes a timeout or error event
    | ReadNext                            // the client reads the next whole line
    | EndOfStream(bytes: nat)             // the body ends after this much of the next line
    | Fail                                // the connection breaks, or the watch is cancelled

  // ---------------------------------------------------------------------------
  // The parties

  function Above(log: seq<Chunk>, after: int): seq<Chunk> {
    if log == [] then []
    else (if log[0].sequenceNo > after then [log[0]] else []) + Above(log[1..], after)
  }

  /** `ListStepLogChunks`: the first `limit` chunks above an exclusive cursor. */
  function ListChunks(log: seq<Chunk>, after: int, limit: nat): seq<Chunk> {
    var above := Above(log, after);
    if |above| > limit then above[..limit] else above
  }

  /** The endpoint's own cursor: that of the request, then the last chunk written. */
  function ServerCursor(link: Link): int
    requires link.Open?
  {
    if link.sent == [] then link.cursor else link.sent[|link.sent| - 1].sequenceNo
  }

  /** All lines written to the response so far. */
  function Written(codec: Codec, link: Link): seq<string>
    requires link.Open?
  {
    StreamLines(codec, link.sent) + link.closing
  }

  function Max(a: int, b: int): int { if b > a then b else a }

  /** The client's state once its reader has moved from `link.reader` to `r`: new
      chunks are printed and move the cursor. A stream that ends or times out is
      reopened later; any other end stops the stream for good. */
  function Advance(s: State, r: Reader, read: nat): State
    requires s.link.Open?
  {
    var news := r.delivered[Min(|s.link.reader.delivered|, |r.delivered|)..];
    var after := if news == [] then s.after else Max(s.after, news[|news| - 1].sequenceNo);
    var link :=
      match r.outcome
      case Reading => s.link.(read := read, reader := r)
      case Ended => Idle
      case TimedOut => Idle
      case ServerFailed => Stopped
      case BadPayload => Stopped
      case Broken => Stopped;
    State(s.log, after, s.emitted + news, link)
  }

  function Min(a: nat, b: nat): nat { if a < b then a else b }

  ghost predicate Next(codec: Codec, s: State, a: Action, t: State) {
    match a
    case Append(chunk) =>
      && chunk.sequenceNo > LastSequence(s.log)
      && t == s.(log := s.log + [chunk])
    case Connect =>
      && s.link.Idle?
      && t == s.(link := Open(s.emitted, s.after, [], [], 0, START))
    case Poll =>
      && s.link.Open? && s.link.closing == []
      && t == s.(link := s.link.(sent := s.link.sent + ListChunks(s.log, ServerCursor(s.link), POLL_LIMIT)))
    case Close(closing) =>
      && s.link.Open? && s.link.closing == [] && Closing(closing)
      && t == s.(link := s.link.(closing := closing))
    case ReadNext =>
      && s.link.Open? && s.link.read < |Written(codec, s.link)|
      && t == Advance(s, ReadLine(codec, s.link.reader, Written(codec, s.link)[s.link.read]), s.link.read + 1)
    case EndOfStream(bytes) =>
      && s.link.Open?
      && (s.link.read < |Written(codec, s.link)| ==> bytes <= |Written(codec, s.link)[s.link.read]|)
      && t == Advance(s, Finish(codec, ReadLine(codec, s.link.reader, Partial(Written(codec, s.link), s.link.read, bytes))),
                      s.link.read)
    case Fail => t == s.(link := Stopped)
  }

  // ---------------------------------------------------------------------------
  // The invariant

  function LastSequence(log: seq<Chunk>): int { SequenceAt(log, |log|) }

  /** The cursor after the first `k` chunks of the log. */
  function SequenceAt(log: seq<Chunk>, k: nat): int {
    if 0 < k <= |log| then log[k - 1].sequenceNo else 0
  }

  ghost predicate Ordered(log: seq<Chunk>) {
    && Numbered(log)
    && forall i, j :: 0 <= i < j < |log| ==> log[i].sequenceNo < log[j].sequenceNo
  }

  /** What was printed is the beginning of the log, and the cursor is its end. */
  ghost predicate Caught(s: State) {
    s.emitted <= s.log && s.after == SequenceAt(s.log, |s.emitted|)
  }

  /** The connection carries on where the printed log stood when it was opened. */
  ghost predicate LinkInv(codec: Codec, s: State)
    requires s.link.Open?
  {
    var link := s.link;
    && link.base + link.sent <= s.log && link.cursor == SequenceAt(s.log, |link.base|)
    && Closing(link.closing)
    && link.read <= |Written(codec, link)|
    && link.reader == ReadLines(codec, START, Written(codec, link)[..link.read])
    && link.reader.outcome == Reading
    && s.emitted == link.base + link.reader.delivered
  }

  ghost predicate Inv(codec: Codec, s: State) {
    && Ordered(s.log) && Caught(s)
    && (s.link.Open? ==> LinkInv(codec, s))
  }

  // ---------------------------------------------------------------------------
  // The endpoint's poll

  lemma {:induction false} AboveLast(log: seq<Chunk>, k: nat)
    requires Ordered(log) && k <= |log|
    ensures Above(log, SequenceAt(log, k)) == log[k..]
  {
    AboveFrom(log, k, SequenceAt(log, k));
  }

  lemma {:induction false} AboveFrom(log: seq<Chunk>, k: nat, after: int)
    requires k <= |log|
    requires forall i :: 0 <= i < k ==> log[i].sequenceNo <= after
    requires forall i :: k <= i < |log| ==> log[i].sequenceNo > after
    ensures Above(log, after) == log[k..]
    decreases |log|
  {
    if log != [] {
      AboveFrom(log[1..], if k == 0 then 0 else k - 1, after);
      assert k == 0 ==> log == [log[0]] + log[1..];
      assert k > 0 ==> log[1..][k - 1..] == log[k..];
    }
  }

  /** A poll writes the chunks that follow those already written. */
  lemma LastSent(base: seq<Chunk>, sent: seq<Chunk>, log: seq<Chunk>)
    requires sent != [] && base + sent <= log
    ensures log[|base| + |sent| - 1] == sent[|sent| - 1]
  {
    assert (base + sent)[|base| + |sent| - 1] == sent[|sent| - 1];
  }

  lemma ExtendPrefix(base: seq<Chunk>, sent: seq<Chunk>, more: seq<Chunk>, log: seq<Chunk>)
    requires base + sent <= log && more <= log[|base| + |sent|..]
    ensures base + (sent + more) <= log
  {
    assert log == (base + sent) + log[|base| + |sent|..];
    ConcatAssoc(base, sent, more);
  }

  lemma PollFollows(codec: Codec, s: State)
    requires Inv(codec, s) && s.link.Open?
    ensures s.link.base + (s.link.sent + ListChunks(s.log, ServerCursor(s.link), POLL_LIMIT)) <= s.log
  {
    var link := s.link;
    var k := |link.base| + |link.sent|;
    if link.sent != [] { LastSent(link.base, link.sent, s.log); }
    AboveLast(s.log, k);
    ExtendPrefix(link.base, link.sent, ListChunks(s.log, ServerCursor(link), POLL_LIMIT), s.log);
  }

  // ---------------------------------------------------------------------------
  // The client's reader

  lemma FlushGrows(codec: Codec, r: Reader)
    ensures r.delivered <= Flush(codec, r).delivered
  {
  }

  lemma ReadGrows(codec: Codec, r: Reader, line: string)
    ensures r.delivered <= ReadLine(codec, r, line).delivered
  {
    FlushGrows(codec, r);
  }

  lemma FinishGrows(codec: Codec, r: Reader)
    ensures r.delivered <= Finish(codec, r).delivered
  {
    FlushGrows(codec, r);
  }

  /** Whole lines read of a response deliver the first chunks it carries. */
  lemma WholeLinesDeliver(codec: Codec, sent: seq<Chunk>, closing: seq<string>, q: nat)
    requires GoodCodec(codec) && Numbered(sent) && Closing(closing)
    requires q <= |StreamLines(codec, sent) + closing|
    ensures ReadLines(codec, START, (StreamLines(codec, sent) + closing)[..q]).delivered <= sent
  {
    var stream := StreamLines(codec, sent);
    if q <= |stream| {
      var i := PrefixRead(codec, sent, q);
      assert (stream + closing)[..q] == stream[..q];
    } else {
      PastStream(codec, sent, closing, q);
      ClosingRead(codec, sent, closing, q - |stream|, 0);
    }
  }

  /** Past the last chunk frame the reader is in the closing frame. */
  lemma PastStream(codec: Codec, sent: seq<Chunk>, closing: seq<string>, q: nat)
    requires GoodCodec(codec) && Numbered(sent)
    requires |StreamLines(codec, sent)| <= q <= |StreamLines(codec, sent) + closing|
    ensures var k := q - |StreamLines(codec, sent)|;
            ReadLines(codec, START, (StreamLines(codec, sent) + closing)[..q]) ==
            ReadLines(codec, Clean(sent), closing[..k])
  {
    var stream := StreamLines(codec, sent);
    var k := q - |stream|;
    assert (stream + closing)[..q] == stream + closing[..k];
    ReadLinesConcat(codec, START, stream, closing[..k]);
    StreamRead(codec, sent);
  }

  /** So does a response that ends after part of a line. */
  lemma CutLineDelivers(codec: Codec, sent: seq<Chunk>, closing: seq<string>, q: nat, m: nat)
    requires GoodCodec(codec) && Numbered(sent) && Closing(closing)
    requires q <= |StreamLines(codec, sent) + closing|
    requires q < |StreamLines(codec, sent) + closing| ==> m <= |(StreamLines(codec, sent) + closing)[q]|
    ensures AtCut(codec, StreamLines(codec, sent) + closing, q, m).delivered <= sent
  {
    var stream := StreamLines(codec, sent);
    var lines := stream + closing;
    if q < |stream| {
      var n := |Unlines(stream[..q])| + m;
      var i := CutCases(codec, sent, n, q, m);
      assert lines[..q] == stream[..q] && Partial(lines, q, m) == Partial(stream, q, m);
    } else {
      var k := q - |stream|;
      PastStream(codec, sent, closing, q);
      ClosingRead(codec, sent, closing, k, m);
      assert Partial(lines, q, m) == Partial(closing, k, m);
    }
  }

  // ---------------------------------------------------------------------------
  // Every step keeps the invariant

  /** Printing more of the log keeps the cursor at its end. */
  lemma PrintedMore(log: seq<Chunk>, emitted: seq<Chunk>, news: seq<Chunk>)
    requires Ordered(log) && emitted + news <= log
    ensures SequenceAt(log, |emitted + news|) ==
            if news == [] then SequenceAt(log, |emitted|)
            else Max(SequenceAt(log, |emitted|), news[|news| - 1].sequenceNo)
  {
    if news != [] {
      var k := |emitted| + |news|;
      assert (emitted + news)[k - 1] == news[|news| - 1] == log[k - 1];
      assert log[k - 1] in log;
    } else {
      assert emitted + news == emitted;
    }
  }

  lemma Resplit(a: seq<Chunk>, b: seq<Chunk>, c: seq<Chunk>)
    requires b <= c
    ensures a + b + c[|b|..] == a + c
  {
  }

  lemma PrefixThrough(a: seq<Chunk>, b: seq<Chunk>, c: seq<Chunk>, log: seq<Chunk>)
    requires b <= c && a + c <= log
    ensures a + b <= log
  {
  }

  lemma AdvanceInv(codec: Codec, s: State, r: Reader, read: nat)
    requires Inv(codec, s) && s.link.Open?
    requires s.link.reader.delivered <= r.delivered <= s.link.sent
    requires read <= |Written(codec, s.link)|
    requires r.outcome == Reading ==> r == ReadLines(codec, START, Written(codec, s.link)[..read])
    ensures Inv(codec, Advance(s, r, read))
    ensures s.emitted <= Advance(s, r, read).emitted
  {
    var t := Advance(s, r, read);
    var had := s.link.reader.delivered;
    var news := r.delivered[|had|..];
    Resplit(s.link.base, had, r.delivered);
    PrefixThrough(s.link.base, r.delivered, s.link.sent, s.log);
    PrintedMore(s.log, s.emitted, news);
    assert t.emitted == s.emitted + news == s.link.base + r.delivered;
  }

  /** What is read stays read when more is written. */
  lemma LongerKeepsRead(a: seq<string>, b: seq<string>, q: nat)
    requires q <= |a| && a <= b
    ensures b[..q] == a[..q]
  {
  }

  lemma PollInv(codec: Codec, s: State, t: State)
    requires Inv(codec, s) && Next(codec, s, Poll, t)
    ensures Inv(codec, t) && s.emitted <= t.emitted
  {
    PollFollows(codec, s);
    var more := ListChunks(s.log, ServerCursor(s.link), POLL_LIMIT);
    var sent := s.link.sent + more;
    TakePart(s.link.sent, more);
    StreamPrefix(codec, sent, |s.link.sent|);
    var a, b := Written(codec, s.link), Written(codec, t.link);
    assert a == StreamLines(codec, s.link.sent) && b == StreamLines(codec, sent);
    LongerKeepsRead(a, b, s.link.read);
  }

  lemma TakePart<T>(a: seq<T>, b: seq<T>)
    ensures (a + b)[..|a|] == a
  {
  }

  lemma CloseInv(codec: Codec, s: State, closing: seq<string>, t: State)
    requires Inv(codec, s) && Next(codec, s, Close(closing), t)
    ensures Inv(codec, t) && s.emitted <= t.emitted
  {
    var a, b := Written(codec, s.link), Written(codec, t.link);
    assert a == StreamLines(codec, s.link.sent);
    LongerKeepsRead(a, b, s.link.read);
  }

  lemma SentNumbered(codec: Codec, s: State)
    requires Inv(codec, s) && s.link.Open?
    ensures Numbered(s.link.sent)
  {
    var have := s.link.base + s.link.sent;
    forall c | c in s.link.sent ensures c in s.log {
      assert c in have;
    }
  }

  lemma ReadInv(codec: Codec, s: State, t: State)
    requires GoodCodec(codec) && Inv(codec, s) && Next(codec, s, ReadNext, t)
    ensures Inv(codec, t) && s.emitted <= t.emitted
  {
    var lines, q := Written(codec, s.link), s.link.read;
    var r := ReadLine(codec, s.link.reader, lines[q]);
    SentNumbered(codec, s);
    ReadLinesStep(codec, START, lines, q);
    ReadGrows(codec, s.link.reader, lines[q]);
    WholeLinesDeliver(codec, s.link.sent, s.link.closing, q + 1);
    AdvanceInv(codec, s, r, q + 1);
  }

  lemma EndInv(codec: Codec, s: State, bytes: nat, t: State)
    requires GoodCodec(codec) && Inv(codec, s) && Next(codec, s, EndOfStream(bytes), t)
    ensures Inv(codec, t) && s.emitted <= t.emitted
  {
    var lines, q := Written(codec, s.link), s.link.read;
    var tail := Partial(lines, q, bytes);
    var mid := ReadLine(codec, s.link.reader, tail);
    SentNumbered(codec, s);
    ReadGrows(codec, s.link.reader, tail);
    FinishGrows(codec, mid);
    CutLineDelivers(codec, s.link.sent, s.link.closing, q, bytes);
    FinishStops(codec, mid);
    PrefixChain(s.link.reader.delivered, mid.delivered, Finish(codec, mid).delivered);
    AdvanceInv(codec, s, Finish(codec, mid), q);
  }

  lemma FinishStops(codec: Codec, r: Reader)
    ensures Finish(codec, r).outcome != Reading
  {
  }

  lemma PrefixChain<T>(a: seq<T>, b: seq<T>, c: seq<T>)
    requires a <= b <= c
    ensures a <= c
  {
  }

  lemma AppendInv(codec: Codec, s: State, chunk: Chunk, t: State)
    requires Inv(codec, s) && Next(codec, s, Append(chunk), t)
    ensures Inv(codec, t) && s.emitted <= t.emitted
  {
    var k := |s.log|;
    assert forall i :: 0 <= i < k ==> t.log[i] == s.log[i];
    forall i | 0 <= i < k ensures s.log[i].sequenceNo < chunk.sequenceNo {
      if i < k - 1 { assert s.log[i].sequenceNo < s.log[k - 1].sequenceNo; }
    }
    assert LastSequence(s.log) >= 0 by { if k > 0 { assert s.log[k - 1] in s.log; } }
    assert s.emitted <= t.log;
    if s.link.Open? { assert s.link.base + s.link.sent <= t.log; }
  }

  /** Every step of every party keeps the invariant, and printed chunks stay printed. */
  lemma NextInv(codec: Codec, s: State, a: Action, t: State)
    requires GoodCodec(codec) && Inv(codec, s) && Next(codec, s, a, t)
    ensures Inv(codec, t) && s.emitted <= t.emitted && s.log <= t.log
  {
    match a
    case Append(chunk) => AppendInv(codec, s, chunk, t);
    case Connect => ConnectInv(codec, s, t);
    case Poll => PollInv(codec, s, t);
    case Close(closing) => CloseInv(codec, s, closing, t);
    case ReadNext => ReadInv(codec, s, t);
    case EndOfStream(bytes) => EndInv(codec, s, bytes, t);
    case Fail =>
  }

  lemma ConnectInv(codec: Codec, s: State, t: State)
    requires Inv(codec, s) && Next(codec, s, Connect, t)
    ensures Inv(codec, t) && s.emitted <= t.emitted
  {
    assert s.emitted + [] == s.emitted;
    assert Written(codec, t.link)[..0] == [];
  }

  // ---------------------------------------------------------------------------
  // Whole runs

  /** A run of the watch of one step: it starts with nothing printed, cursor zero. */
  ghost predicate Run(codec: Codec, states: seq<State>, actions: seq<Action>) {
    && |states| == |actions| + 1
    && states[0] == State([], 0, [], Idle)
    && forall i :: 0 <= i < |actions| ==> Next(codec, states[i], actions[i], states[i + 1])
  }

  /** In every state of every run the chunks printed are a prefix of the stored log,
      without gap, repetition or reordering, and what was printed stays printed. */
  lemma {:induction false} RunPrintsPrefix(codec: Codec, states: seq<State>, actions: seq<Action>, i: nat)
    requires GoodCodec(codec) && Run(codec, states, actions) && i < |states|
    ensures Inv(codec, states[i])
    ensures states[i].emitted <= states[i].log
    ensures forall j, k :: 0 <= j < k < |states[i].emitted| ==> states[i].emitted[j].sequenceNo < states[i].emitted[k].sequenceNo
    ensures i > 0 ==> states[i - 1].emitted <= states[i].emitted
  {
    if i > 0 {
      RunPrintsPrefix(codec, states, actions, i - 1);
      assert Next(codec, states[i - 1], actions[i - 1], states[i]);
      NextInv(codec, states[i - 1], actions[i - 1], states[i]);
    }
    var s := states[i];
    forall j, k | 0 <= j < k < |s.emitted| ensures s.emitted[j].sequenceNo < s.emitted[k].sequenceNo {
      assert s.emitted[j] == s.log[j] && s.emitted[k] == s.log[k];
    }
  }
}
