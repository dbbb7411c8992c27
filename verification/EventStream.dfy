/** The server-sent-events text the log endpoint writes and the client that reads it
    line by line. The reader trims white space around data, flushes a pending event
    at the end of the stream and ignores `id:` and `retry:` lines; in these points it
    differs from section 9.2.6 of the WHATWG HTML Living Standard. */
module EventStream {
  import opened Text

  /** A persisted log chunk. */
  datatype Chunk = Chunk(sequenceNo: int, stepIndex: int, text: string)

  /** The JSON encoding of chunks, as a pair of functions. */
  datatype Codec = Codec(encode: Chunk -> string, decode: string -> Option<Chunk>)

  /** How reading a stream ended. */
  datatype Outcome = Reading | Ended | TimedOut | ServerFailed | BadPayload | Broken

  /** The reader's variables: the event type and data lines of the event being read,
      the chunks handed to the caller so far, and whether it has returned. */
  datatype Reader = Reader(kind: string, data: seq<string>, delivered: seq<Chunk>, outcome: Outcome)

  const START := Reader("message", [], [], Reading)

  // ---------------------------------------------------------------------------
  // Reading one line

  /** Drop trailing carriage returns and newlines. */
  function TrimLine(line: string): string {
    if line != [] && (line[|line| - 1] == '\r' || line[|line| - 1] == '\n') then TrimLine(line[..|line| - 1]) else line
  }

  /** `flushEvent` */
  function Flush(codec: Codec, r: Reader): Reader {
    if r.data == [] then r.(kind := "message")
    else
      var data := Join(r.data, '\n');
      if r.kind == "chunk" then
        match codec.decode(data)
        case None => r.(data := [], outcome := BadPayload)
        case Some(chunk) => r.(kind := "message", data := [], delivered := r.delivered + [chunk])
      else if r.kind == "timeout" then r.(kind := "message", data := [], outcome := TimedOut)
      else if r.kind == "error" then r.(data := [], outcome := ServerFailed)
      else r.(kind := "message", data := [])
  }

  /** The body of the read loop, for one line without its newline. A reader that has
      returned reads no more. */
  function ReadLine(codec: Codec, r: Reader, line: string): Reader {
    if r.outcome != Reading then r
    else
      var l := TrimLine(line);
      if l == "" then Flush(codec, r)
      else if HasPrefix(l, ":") then r
      else if HasPrefix(l, "event:") then r.(kind := Trim(l[6..]))
      else if HasPrefix(l, "data:") then r.(data := r.data + [Trim(l[5..])])
      else r
  }

  function ReadLines(codec: Codec, r: Reader, lines: seq<string>): Reader
    decreases |lines|
  {
    if lines == [] then r else ReadLines(codec, ReadLine(codec, r, lines[0]), lines[1..])
  }

  /** The end of the stream: the pending event is flushed and the call returns. */
  function Finish(codec: Codec, r: Reader): Reader {
    if r.outcome != Reading then r
    else
      var f := Flush(codec, r);
      if f.outcome == Reading then f.(outcome := Ended) else f
  }

  /** A connection that fails: the unfinished line is dropped and an error returned. */
  function Break(r: Reader): Reader {
    if r.outcome != Reading then r else r.(outcome := Broken)
  }

  /** Reading a whole response body that ends normally. */
  function ReadBody(codec: Codec, body: string): Reader {
    Finish(codec, ReadLines(codec, START, Split(body, '\n')))
  }

  /** Reading a response body whose connection breaks after it. */
  function ReadBroken(codec: Codec, body: string): Reader {
    var lines := Split(body, '\n');
    Break(ReadLines(codec, START, lines[..|lines| - 1]))
  }

  /** `StreamBuildStepLogs`, reading line by line up to each newline. */
  method StreamBuildStepLogs(codec: Codec, body: string, breaks: bool) returns (r: Reader)
    ensures r == if breaks then ReadBroken(codec, body) else ReadBody(codec, body)
  {
    var kind, data, delivered := "message", [], [];
    var pos := 0;
    ghost var lines := Split(body, '\n');
    ghost var done := 0;
    DropNone(body);
    DropNone(lines);
    while true
      invariant 0 <= pos <= |body| && 0 <= done < |lines|
      invariant Split(body[pos..], '\n') == lines[done..]
      invariant ReadLines(codec, START, lines[..done]) == Reader(kind, data, delivered, Reading)
      decreases |body| - pos
    {
      var end := NextNewline(body, pos);
      var line := body[pos..end];
      var before := Reader(kind, data, delivered, Reading);
      LineAt(body, pos, end, lines, done);
      if end == |body| && breaks {
        return Break(before);
      }
      var after := ReadLine(codec, before, line);
      ReadLinesStep(codec, START, lines, done);
      if after.outcome != Reading {
        StopsAt(codec, body, done, after);
        return after;
      }
      if end == |body| {
        TakeAll(lines);
        return Finish(codec, after);
      }
      kind, data, delivered := after.kind, after.data, after.delivered;
      pos := end + 1;
      done := done + 1;
    }
  }

  /** Once the reader has returned, the lines that follow do not matter. */
  lemma StopsAt(codec: Codec, body: string, done: nat, after: Reader)
    requires var lines := Split(body, '\n');
             done < |lines| && ReadLines(codec, START, lines[..done + 1]) == after && after.outcome != Reading
    ensures ReadBody(codec, body) == after
    ensures done + 1 < |Split(body, '\n')| ==> ReadBroken(codec, body) == after
  {
    var lines := Split(body, '\n');
    TakeAll(lines);
    ReadLinesPrefix(codec, START, lines, done + 1, |lines|);
    ReadLinesStopped(codec, after, lines[done + 1..|lines|]);
    if done + 1 < |lines| {
      ReadLinesPrefix(codec, START, lines, done + 1, |lines| - 1);
      ReadLinesStopped(codec, after, lines[done + 1..|lines| - 1]);
    }
  }

  method NextNewline(body: string, pos: nat) returns (end: nat)
    requires pos <= |body|
    ensures pos <= end <= |body| && '\n' !in body[pos..end]
    ensures end < |body| ==> body[end] == '\n'
  {
    end := pos;
    while end < |body| && body[end] != '\n'
      invariant pos <= end <= |body| && '\n' !in body[pos..end]
    {
      assert body[pos..end + 1] == body[pos..end] + [body[end]];
      end := end + 1;
    }
  }

  /** What the text up to the next newline is among the lines of the body. */
  lemma LineAt(body: string, pos: nat, end: nat, lines: seq<string>, done: nat)
    requires pos <= end <= |body| && '\n' !in body[pos..end] && done < |lines|
    requires end < |body| ==> body[end] == '\n'
    requires Split(body[pos..], '\n') == lines[done..]
    ensures lines[done] == body[pos..end]
    ensures end == |body| <==> done == |lines| - 1
    ensures end < |body| ==> Split(body[end + 1..], '\n') == lines[done + 1..]
  {
    var line := body[pos..end];
    SplitPlain(line, '\n');
    if end == |body| {
      assert body[pos..] == line;
    } else {
      assert body[pos..] == line + ['\n'] + body[end + 1..];
      SplitConcat(line, '\n', body[end + 1..]);
      assert lines[done..][1..] == lines[done + 1..];
    }
  }

  // ---------------------------------------------------------------------------
  // Reading in pieces

  lemma {:induction false} ReadLinesConcat(codec: Codec, r: Reader, a: seq<string>, b: seq<string>)
    ensures ReadLines(codec, r, a + b) == ReadLines(codec, ReadLines(codec, r, a), b)
    decreases |a|
  {
    if a == [] {
      assert a + b == b;
    } else {
      assert (a + b)[1..] == a[1..] + b;
      ReadLinesConcat(codec, ReadLine(codec, r, a[0]), a[1..], b);
    }
  }

  lemma ReadLinesStep(codec: Codec, r: Reader, lines: seq<string>, k: nat)
    requires k < |lines|
    ensures ReadLines(codec, r, lines[..k + 1]) == ReadLine(codec, ReadLines(codec, r, lines[..k]), lines[k])
  {
    assert lines[..k + 1] == lines[..k] + [lines[k]];
    ReadLinesConcat(codec, r, lines[..k], [lines[k]]);
    assert [lines[k]][1..] == [];
  }

  lemma ReadLinesPrefix(codec: Codec, r: Reader, lines: seq<string>, k: nat, m: nat)
    requires k <= m <= |lines|
    ensures ReadLines(codec, r, lines[..m]) == ReadLines(codec, ReadLines(codec, r, lines[..k]), lines[k..m])
  {
    assert lines[..m] == lines[..k] + lines[k..m];
    ReadLinesConcat(codec, r, lines[..k], lines[k..m]);
  }

  lemma {:induction false} ReadLinesStopped(codec: Codec, r: Reader, lines: seq<string>)
    requires r.outcome != Reading
    ensures ReadLines(codec, r, lines) == r
    decreases |lines|
  {
    if lines != [] { ReadLinesStopped(codec, r, lines[1..]); }
  }

  // ---------------------------------------------------------------------------
  // The meaning of a stream, block by block

  predicate Blank(line: string) { TrimLine(line) == "" }

  /** The groups of lines between blank lines. */
  function Blocks(lines: seq<string>): (r: seq<seq<string>>)
    ensures |r| >= 1
  {
    if lines == [] then [[]]
    else
      var rest := Blocks(lines[1..]);
      if Blank(lines[0]) then [[]] + rest else [[lines[0]] + rest[0]] + rest[1..]
  }

  predicate EventLine(line: string) { HasPrefix(TrimLine(line), "event:") }

  predicate DataLine(line: string) { HasPrefix(TrimLine(line), "data:") }

  /** The type of a block: its last `event:` line, or `message`. */
  function KindOf(block: seq<string>): string {
    if block == [] then "message"
    else
      var last := block[|block| - 1];
      if EventLine(last) then Trim(TrimLine(last)[6..]) else KindOf(block[..|block| - 1])
  }

  /** The values of the `data:` lines of a block, in order. */
  function DataOf(block: seq<string>): seq<string> {
    if block == [] then []
    else
      var last, before := block[|block| - 1], DataOf(block[..|block| - 1]);
      if DataLine(last) then before + [Trim(TrimLine(last)[5..])] else before
  }

  /** What one block does, whatever surrounds it. */
  datatype Verdict = Nothing | Deliver(chunk: Chunk) | Stop(outcome: Outcome)

  function Interpret(codec: Codec, block: seq<string>): Verdict {
    if DataOf(block) == [] then Nothing
    else if KindOf(block) == "chunk" then
      match codec.decode(Join(DataOf(block), '\n'))
      case None => Stop(BadPayload)
      case Some(chunk) => Deliver(chunk)
    else if KindOf(block) == "timeout" then Stop(TimedOut)
    else if KindOf(block) == "error" then Stop(ServerFailed)
    else Nothing
  }

  function InterpretAll(codec: Codec, blocks: seq<seq<string>>): seq<Verdict> {
    if blocks == [] then [] else [Interpret(codec, blocks[0])] + InterpretAll(codec, blocks[1..])
  }

  /** The chunks delivered up to the first verdict that stops, and that verdict. */
  function Collect(verdicts: seq<Verdict>): (seq<Chunk>, Outcome) {
    if verdicts == [] then ([], Ended)
    else
      match verdicts[0]
      case Stop(outcome) => ([], outcome)
      case Nothing => Collect(verdicts[1..])
      case Deliver(chunk) =>
        var (more, outcome) := Collect(verdicts[1..]);
        ([chunk] + more, outcome)
  }

  /** The reader in the middle of a block it has read `block` of. */
  function Within(block: seq<string>, delivered: seq<Chunk>): Reader {
    Reader(KindOf(block), DataOf(block), delivered, Reading)
  }

  lemma ReadWithin(codec: Codec, block: seq<string>, delivered: seq<Chunk>, line: string)
    requires !Blank(line)
    ensures ReadLine(codec, Within(block, delivered), line) == Within(block + [line], delivered)
  {
    var longer := block + [line];
    assert longer[..|longer| - 1] == block;
    var l := TrimLine(line);
    assert l != "";
    assert HasPrefix(l, ":") ==> l[0] == ':';
    assert HasPrefix(l, "event:") ==> l[0] == 'e';
    assert HasPrefix(l, "data:") ==> l[0] == 'd';
  }

  /** Flushing the reader gives the verdict of the block alone. */
  lemma FlushVerdict(codec: Codec, block: seq<string>, delivered: seq<Chunk>)
    ensures var f, v := Flush(codec, Within(block, delivered)), Interpret(codec, block);
            match v
            case Nothing => f == Within([], delivered)
            case Deliver(chunk) => f == Within([], delivered + [chunk])
            case Stop(outcome) => f.delivered == delivered && f.outcome == outcome && outcome != Reading
  {
  }

  /** The meaning of a list of blocks. */
  function Meaning(codec: Codec, blocks: seq<seq<string>>): (seq<Chunk>, Outcome) {
    Collect(InterpretAll(codec, blocks))
  }

  lemma MeaningStep(codec: Codec, block: seq<string>, rest: seq<seq<string>>)
    ensures var (more, outcome) := Meaning(codec, rest);
            Meaning(codec, [block] + rest) ==
              match Interpret(codec, block)
              case Nothing => (more, outcome)
              case Deliver(chunk) => ([chunk] + more, outcome)
              case Stop(stopped) => ([], stopped)
  {
    assert ([block] + rest)[1..] == rest;
    assert InterpretAll(codec, [block] + rest)[1..] == InterpretAll(codec, rest);
  }

  /** The blocks of the lines still to come, when `block` was read before them. */
  function Continued(block: seq<string>, lines: seq<string>): seq<seq<string>> {
    var blocks := Blocks(lines);
    [block + blocks[0]] + blocks[1..]
  }

  lemma ContinuedCases(block: seq<string>, lines: seq<string>)
    ensures Continued([], lines) == Blocks(lines)
    ensures lines == [] ==> Continued(block, lines) == [block] + []
    ensures lines != [] && Blank(lines[0]) ==> Continued(block, lines) == [block] + Blocks(lines[1..])
    ensures lines != [] && !Blank(lines[0]) ==> Continued(block, lines) == Continued(block + [lines[0]], lines[1..])
  {
    var blocks := Blocks(lines);
    assert [] + blocks[0] == blocks[0];
    assert block + [] == block;
    if lines != [] && !Blank(lines[0]) {
      assert block + [lines[0]] + Blocks(lines[1..])[0] == block + ([lines[0]] + Blocks(lines[1..])[0]);
    }
  }

  /** Reading on from the middle of a block. */
  lemma {:induction false} ReadFromWithin(codec: Codec, block: seq<string>, delivered: seq<Chunk>, lines: seq<string>)
    ensures var r := Finish(codec, ReadLines(codec, Within(block, delivered), lines));
            var (chunks, outcome) := Meaning(codec, Continued(block, lines));
            r.delivered == delivered + chunks && r.outcome == outcome
    decreases |lines|
  {
    ContinuedCases(block, lines);
    if lines == [] {
      FlushVerdict(codec, block, delivered);
      MeaningStep(codec, block, []);
    } else if Blank(lines[0]) {
      FlushVerdict(codec, block, delivered);
      MeaningStep(codec, block, Blocks(lines[1..]));
      ContinuedCases([], lines[1..]);
      match Interpret(codec, block)
      case Nothing => ReadFromWithin(codec, [], delivered, lines[1..]);
      case Deliver(chunk) =>
        ReadFromWithin(codec, [], delivered + [chunk], lines[1..]);
        var more := Meaning(codec, Blocks(lines[1..])).0;
        assert delivered + [chunk] + more == delivered + ([chunk] + more);
      case Stop(outcome) =>
        ReadLinesStopped(codec, Flush(codec, Within(block, delivered)), lines[1..]);
    } else {
      ReadWithin(codec, block, delivered, lines[0]);
      ReadFromWithin(codec, block + [lines[0]], delivered, lines[1..]);
    }
  }

  /** The line machine computes the meaning of the stream: each block is interpreted
      on its own, and nothing leaks from one block into the next. */
  lemma ReadBodyMeaning(codec: Codec, body: string)
    ensures (ReadBody(codec, body).delivered, ReadBody(codec, body).outcome) ==
            Meaning(codec, Blocks(Split(body, '\n')))
  {
    assert Within([], []) == START;
    ReadFromWithin(codec, [], [], Split(body, '\n'));
    ContinuedCases([], Split(body, '\n'));
    var chunks := Meaning(codec, Blocks(Split(body, '\n'))).0;
    assert [] + chunks == chunks;
  }
}
