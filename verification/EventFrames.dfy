/** What the log endpoint writes on the wire, and what is left of it when the
    connection is cut at any byte. */
module EventFrames {
  import opened Text
  import opened EventStream

  // ---------------------------------------------------------------------------
  // The text of a stream

  function Decimal(n: nat): string {
    (if n < 10 then "" else Decimal(n / 10)) + [('0' as int + n % 10) as char]
  }

  /** The lines `writeSSEEvent` writes; an event number of zero or less is left out. */
  function FrameLines(kind: string, id: int, payload: string): seq<string> {
    (if id > 0 then [Field("id:", Decimal(id))] else []) + [Field("event:", kind), Field("data:", payload), ""]
  }

  function Field(name: string, value: string): string { name + (" " + value) }

  function ChunkLines(codec: Codec, c: Chunk): seq<string> {
    FrameLines("chunk", c.sequenceNo, codec.encode(c))
  }

  function ChunksLines(codec: Codec, chunks: seq<Chunk>): seq<string> {
    if chunks == [] then [] else ChunksLines(codec, chunks[..|chunks| - 1]) + ChunkLines(codec, chunks[|chunks| - 1])
  }

  /** The comment that opens every stream, then one frame per chunk. */
  function StreamLines(codec: Codec, chunks: seq<Chunk>): seq<string> {
    [": connected", ""] + ChunksLines(codec, chunks)
  }

  /** Every line with its newline. */
  function Unlines(lines: seq<string>): string {
    if lines == [] then "" else lines[0] + "\n" + Unlines(lines[1..])
  }

  predicate OneLine(s: string) { '\n' !in s && '\r' !in s }

  /** The JSON text of a chunk is one line without surrounding white space, decodes
      to the chunk, and no proper prefix of it is valid. */
  ghost predicate GoodCodec(codec: Codec) {
    forall c: Chunk ::
      && OneLine(codec.encode(c)) && codec.encode(c) != "" && Trimmed(codec.encode(c))
      && codec.decode(codec.encode(c)) == Some(c)
      && forall i :: 0 <= i < |codec.encode(c)| ==> codec.decode(codec.encode(c)[..i]) == None
  }

  /** Persisted chunks are numbered from one. */
  predicate Numbered(chunks: seq<Chunk>) { forall c <- chunks :: c.sequenceNo > 0 }

  /** The frame that closes a stream: a timeout, an error, or nothing. */
  ghost predicate Closing(last: seq<string>) {
    last == [] ||
    exists kind, payload ::
      (kind == "timeout" || kind == "error") && OneLine(payload) && last == FrameLines(kind, 0, payload)
  }

  // ---------------------------------------------------------------------------
  // Cutting a text into lines

  lemma {:induction false} UnlinesConcat(a: seq<string>, b: seq<string>)
    ensures Unlines(a + b) == Unlines(a) + Unlines(b)
  {
    if a == [] {
      assert a + b == b;
    } else {
      UnlinesConcat(a[1..], b);
      assert (a + b)[1..] == a[1..] + b;
      ConcatAssoc(a[0] + "\n", Unlines(a[1..]), Unlines(b));
    }
  }

  lemma SplitFirst(line: string, tail: string)
    requires OneLine(line)
    ensures Split(line + "\n" + tail, '\n') == [line] + Split(tail, '\n')
  {
    SplitPlain(line, '\n');
    SplitConcat(line, '\n', tail);
  }

  lemma {:induction false} SplitUnlines(lines: seq<string>, rest: string)
    requires forall l <- lines :: OneLine(l)
    ensures Split(Unlines(lines) + rest, '\n') == lines + Split(rest, '\n')
  {
    if lines == [] {
      assert Unlines(lines) + rest == rest;
    } else {
      var first, others := lines[0], lines[1..];
      assert first in lines;
      SplitUnlines(others, rest);
      SplitFirst(first, Unlines(others) + rest);
      ConcatAssoc(first + "\n", Unlines(others), rest);
      ConcatAssoc([first], others, Split(rest, '\n'));
      assert lines == [first] + others;
    }
  }

  /** A cut after `n` bytes keeps `k` whole lines and `m` bytes of the next. */
  ghost predicate CutAt(lines: seq<string>, n: nat, k: nat, m: nat) {
    && k <= |lines| && (k < |lines| ==> m <= |lines[k]|) && (k == |lines| ==> m == 0)
    && n == |Unlines(lines[..k])| + m
  }

  function Partial(lines: seq<string>, k: nat, m: nat): string {
    if k < |lines| && m <= |lines[k]| then lines[k][..m] else ""
  }

  lemma {:induction false} CutLines(lines: seq<string>, n: nat) returns (k: nat, m: nat)
    requires n <= |Unlines(lines)|
    ensures CutAt(lines, n, k, m)
    ensures Unlines(lines)[..n] == Unlines(lines[..k]) + Partial(lines, k, m)
    decreases |lines|
  {
    if lines == [] {
      k, m := 0, 0;
    } else if n <= |lines[0]| {
      k, m := 0, n;
      assert Unlines(lines)[..n] == lines[0][..n];
      assert lines[..0] == [];
    } else {
      var rest := lines[1..];
      var n' := n - |lines[0]| - 1;
      var k', m' := CutLines(rest, n');
      k, m := k' + 1, m';
      assert lines[..k] == [lines[0]] + rest[..k'];
      assert lines[..k][1..] == rest[..k'];
      assert Unlines(lines)[..n] == lines[0] + "\n" + Unlines(rest)[..n'];
    }
  }

  /** The lines the reader sees of a cut stream. */
  lemma CutSplit(lines: seq<string>, n: nat) returns (k: nat, m: nat)
    requires n <= |Unlines(lines)| && forall l <- lines :: OneLine(l)
    ensures CutAt(lines, n, k, m)
    ensures Split(Unlines(lines)[..n], '\n') == lines[..k] + [Partial(lines, k, m)]
  {
    k, m := CutLines(lines, n);
    SplitUnlines(lines[..k], Partial(lines, k, m));
    assert '\n' !in Partial(lines, k, m) by {
      if k < |lines| { assert lines[k] in lines; }
    }
    SplitPlain(Partial(lines, k, m), '\n');
  }

  // ---------------------------------------------------------------------------
  // Reading one frame

  /** The reader between two events. */
  function Clean(delivered: seq<Chunk>): Reader { Reader("message", [], delivered, Reading) }

  lemma {:induction false} TrimLinePlain(l: string)
    requires OneLine(l)
    ensures TrimLine(l) == l
  {
    if l != [] { assert l[|l| - 1] in l; }
  }

  lemma {:induction false} DecimalDigits(n: nat)
    ensures Decimal(n) != "" && forall c <- Decimal(n) :: '0' <= c <= '9'
  {
    if n >= 10 { DecimalDigits(n / 10); }
  }

  /** The text of a field: its name, a space, its value. */
  lemma FieldOneLine(name: string, value: string)
    requires OneLine(name) && OneLine(value)
    ensures OneLine(Field(name, value))
  {
    assert OneLine(" " + value);
  }

  lemma FieldParts(name: string, value: string)
    ensures HasPrefix(Field(name, value), name) && Field(name, value)[|name|..] == " " + value
    ensures |Field(name, value)| == |name| + 1 + |value|
    ensures name != "" ==> Field(name, value)[0] == name[0]
  {
  }

  lemma FrameOneLine(kind: string, id: int, payload: string)
    requires OneLine(kind) && OneLine(payload)
    ensures forall l <- FrameLines(kind, id, payload) :: OneLine(l)
  {
    FieldOneLine("event:", kind);
    FieldOneLine("data:", payload);
    if id > 0 {
      DecimalDigits(id);
      FieldOneLine("id:", Decimal(id));
    }
  }

  /** A line that starts with none of the reader's prefixes is skipped. */
  lemma SkippedLine(codec: Codec, r: Reader, l: string)
    requires r.outcome == Reading && OneLine(l) && l != ""
    requires l[0] != 'e' && l[0] != 'd'
    ensures ReadLine(codec, r, l) == r
  {
    TrimLinePlain(l);
    PrefixStarts(l, "event:");
    PrefixStarts(l, "data:");
  }

  /** What a line that starts with `e` is not. */
  lemma StartsWithE(l: string)
    requires OneLine(l) && l != "" && l[0] == 'e'
    ensures TrimLine(l) == l && !HasPrefix(l, ":") && !HasPrefix(l, "data:")
  {
    TrimLinePlain(l);
    PrefixStarts(l, ":");
    PrefixStarts(l, "data:");
  }

  /** A line of `event:`, or a cut one: the data lines are left alone. */
  lemma EventLineRead(codec: Codec, r: Reader, l: string)
    requires r.outcome == Reading && l != "" && TrimLine(l) == l && !HasPrefix(l, ":") && !HasPrefix(l, "data:")
    ensures ReadLine(codec, r, l) == r || ReadLine(codec, r, l) == r.(kind := ReadLine(codec, r, l).kind)
    ensures HasPrefix(l, "event:") ==> ReadLine(codec, r, l) == r.(kind := Trim(l[6..]))
  {
  }

  lemma DataLineRead(codec: Codec, r: Reader, l: string)
    requires r.outcome == Reading && OneLine(l) && l != "" && l[0] == 'd'
    ensures HasPrefix(l, "data:") ==> ReadLine(codec, r, l) == r.(data := r.data + [Trim(l[5..])])
    ensures !HasPrefix(l, "data:") ==> ReadLine(codec, r, l) == r
  {
    TrimLinePlain(l);
    PrefixStarts(l, ":");
    PrefixStarts(l, "event:");
  }

  lemma KindLineRead(codec: Codec, r: Reader, kind: string)
    requires r.outcome == Reading && OneLine(kind) && Trimmed(kind)
    ensures ReadLine(codec, r, Field("event:", kind)) == r.(kind := kind)
  {
    FieldOneLine("event:", kind);
    FieldParts("event:", kind);
    StartsWithE(Field("event:", kind));
    EventLineRead(codec, r, Field("event:", kind));
    TrimAfterSpace(kind);
  }

  /** The reader after `j` lines of a chunk frame. */
  function FrameState(codec: Codec, c: Chunk, d: seq<Chunk>, j: nat): Reader {
    if j < 2 then Clean(d)
    else if j == 2 then Reader("chunk", [], d, Reading)
    else if j == 3 then Reader("chunk", [codec.encode(c)], d, Reading)
    else Clean(d + [c])
  }

  lemma ChunkDataRead(codec: Codec, c: Chunk, d: seq<Chunk>)
    requires GoodCodec(codec)
    ensures ReadLine(codec, FrameState(codec, c, d, 2), Field("data:", codec.encode(c))) == FrameState(codec, c, d, 3)
  {
    var x := codec.encode(c);
    FieldOneLine("data:", x);
    FieldParts("data:", x);
    DataLineRead(codec, FrameState(codec, c, d, 2), Field("data:", x));
    TrimAfterSpace(x);
  }

  lemma ChunkFlushed(codec: Codec, c: Chunk, d: seq<Chunk>)
    requires GoodCodec(codec)
    ensures Flush(codec, FrameState(codec, c, d, 3)) == Clean(d + [c])
  {
    assert Join([codec.encode(c)], '\n') == codec.encode(c);
  }

  /** One line of a chunk frame moves the reader one state on. */
  lemma FrameStep(codec: Codec, c: Chunk, d: seq<Chunk>, j: nat)
    requires GoodCodec(codec) && c.sequenceNo > 0 && j < 4
    ensures |ChunkLines(codec, c)| == 4
    ensures ReadLine(codec, FrameState(codec, c, d, j), ChunkLines(codec, c)[j]) == FrameState(codec, c, d, j + 1)
  {
    if j == 0 {
      DecimalDigits(c.sequenceNo);
      FieldOneLine("id:", Decimal(c.sequenceNo));
      FieldParts("id:", Decimal(c.sequenceNo));
      SkippedLine(codec, Clean(d), Field("id:", Decimal(c.sequenceNo)));
    } else if j == 1 {
      KindLineRead(codec, Clean(d), "chunk");
    } else if j == 2 {
      ChunkDataRead(codec, c, d);
    } else {
      ChunkFlushed(codec, c, d);
    }
  }

  lemma {:induction false} FrameRead(codec: Codec, c: Chunk, d: seq<Chunk>, j: nat)
    requires GoodCodec(codec) && c.sequenceNo > 0 && j <= 4
    ensures |ChunkLines(codec, c)| == 4
    ensures ReadLines(codec, Clean(d), ChunkLines(codec, c)[..j]) == FrameState(codec, c, d, j)
  {
    if j > 0 {
      FrameRead(codec, c, d, j - 1);
      ReadLinesStep(codec, Clean(d), ChunkLines(codec, c), j - 1);
      FrameStep(codec, c, d, j - 1);
    }
  }

  // ---------------------------------------------------------------------------
  // A frame cut short

  /** What is left of a payload after the cut and trimming is a proper prefix of it. */
  lemma CutPayload(x: string, m: nat)
    requires x != "" && Trimmed(x) && 5 <= m < |Field("data:", x)|
    ensures var kept := Trim(Field("data:", x)[..m][5..]);
            |kept| < |x| && kept == x[..|kept|]
  {
    CutConcat("data:", " " + x, m);
    CutSpaced(x, m - 5);
  }

  lemma CutSpaced(x: string, t: nat)
    requires x != "" && Trimmed(x) && t <= |x|
    ensures var kept := Trim((" " + x)[..t]);
            |kept| < |x| && kept == x[..|kept|]
  {
    if t > 0 {
      SpacePrefix(x, t - 1);
      CutText(x, t - 1);
    }
  }

  lemma SpacePrefix(x: string, t: nat)
    requires t <= |x|
    ensures (" " + x)[..t + 1] == " " + x[..t]
  {
  }

  lemma CutText(x: string, t: nat)
    requires Trimmed(x) && t < |x|
    ensures var kept := Trim(" " + x[..t]);
            |kept| < |x| && kept == x[..|kept|]
  {
    var y := x[..t];
    TrimLeadingSpace(y);
    TrimIsPrefix(y);
    PrefixOfTake(Trim(y), x, t);
  }

  /** A chunk event whose data does not decode. */
  lemma UndecodedData(codec: Codec, d: seq<Chunk>, kept: string)
    requires codec.decode(kept) == None
    ensures Finish(codec, Reader("chunk", [kept], d, Reading)) == Reader("chunk", [], d, BadPayload)
  {
    assert Join([kept], '\n') == kept;
  }

  /** The data line of a chunk, cut before its end, never yields a chunk. */
  lemma CutData(codec: Codec, c: Chunk, d: seq<Chunk>, m: nat)
    requires GoodCodec(codec) && m < |Field("data:", codec.encode(c))|
    ensures var f := Finish(codec, ReadLine(codec, FrameState(codec, c, d, 2), Field("data:", codec.encode(c))[..m]));
            f.delivered == d && (f.outcome == Ended || f.outcome == BadPayload)
  {
    var x := codec.encode(c);
    var l := Field("data:", x)[..m];
    FieldOneLine("data:", x);
    FieldParts("data:", x);
    if m > 0 {
      DataLineRead(codec, FrameState(codec, c, d, 2), l);
      if HasPrefix(l, "data:") {
        CutPayload(x, m);
        UndecodedData(codec, d, Trim(l[5..]));
      }
    }
  }

  /** The reader at the end of a stream cut inside a chunk frame: the chunk is
      delivered exactly when its data line is complete. */
  lemma FrameCut(codec: Codec, c: Chunk, d: seq<Chunk>, j: nat, m: nat)
    requires GoodCodec(codec) && c.sequenceNo > 0 && j <= 4 && |ChunkLines(codec, c)| == 4
    requires j < 4 ==> m <= |ChunkLines(codec, c)[j]|
    ensures var f := Finish(codec, ReadLine(codec, FrameState(codec, c, d, j), Partial(ChunkLines(codec, c), j, m)));
            && f.delivered == (if j >= 3 || (j == 2 && m == |ChunkLines(codec, c)[2]|) then d + [c] else d)
            && (f.outcome == Ended || f.outcome == BadPayload)
  {
    var l := Partial(ChunkLines(codec, c), j, m);
    if j == 0 {
      IdPart(c, m);
      IdCut(codec, d, l);
    } else if j == 1 {
      EventPart("chunk", m);
      EventCut(codec, d, l);
    } else if j == 2 {
      if m == |ChunkLines(codec, c)[2]| {
        assert l == ChunkLines(codec, c)[2];
        ChunkDataRead(codec, c, d);
        ChunkFlushed(codec, c, d);
      } else {
        CutData(codec, c, d, m);
      }
    } else {
      assert l == "";
      if j == 3 { ChunkFlushed(codec, c, d); }
    }
  }

  /** A line of `id:`, whole or cut, at the end of a stream delivers nothing. */
  lemma IdCut(codec: Codec, d: seq<Chunk>, line: string)
    requires OneLine(line) && (line != "" ==> line[0] == 'i')
    ensures Finish(codec, ReadLine(codec, Clean(d), line)) == Clean(d).(outcome := Ended)
  {
    if line != "" { SkippedLine(codec, Clean(d), line); }
  }

  lemma IdPart(c: Chunk, m: nat)
    requires c.sequenceNo > 0 && m <= |Field("id:", Decimal(c.sequenceNo))|
    ensures var line := Field("id:", Decimal(c.sequenceNo))[..m]; OneLine(line) && (line != "" ==> line[0] == 'i')
  {
    DecimalDigits(c.sequenceNo);
    FieldOneLine("id:", Decimal(c.sequenceNo));
    FieldParts("id:", Decimal(c.sequenceNo));
  }

  /** A line of `event:`, whole or cut, at the end of a stream delivers nothing. */
  lemma EventCut(codec: Codec, d: seq<Chunk>, line: string)
    requires OneLine(line) && (line != "" ==> line[0] == 'e')
    ensures Finish(codec, ReadLine(codec, Clean(d), line)) == Clean(d).(outcome := Ended)
  {
    if line != "" {
      StartsWithE(line);
      EventLineRead(codec, Clean(d), line);
    }
  }

  lemma EventPart(kind: string, m: nat)
    requires OneLine(kind) && m <= |Field("event:", kind)|
    ensures var line := Field("event:", kind)[..m]; OneLine(line) && (line != "" ==> line[0] == 'e')
  {
    FieldOneLine("event:", kind);
    FieldParts("event:", kind);
  }

  // ---------------------------------------------------------------------------
  // Reading whole streams

  lemma {:induction false} ChunksShape(codec: Codec, chunks: seq<Chunk>)
    requires GoodCodec(codec) && Numbered(chunks)
    ensures |ChunksLines(codec, chunks)| == 4 * |chunks|
    ensures forall l <- ChunksLines(codec, chunks) :: OneLine(l)
  {
    if chunks != [] {
      var c := chunks[|chunks| - 1];
      assert c in chunks;
      ChunksShape(codec, chunks[..|chunks| - 1]);
      FrameOneLine("chunk", c.sequenceNo, codec.encode(c));
    }
  }

  lemma StreamShape(codec: Codec, chunks: seq<Chunk>)
    requires GoodCodec(codec) && Numbered(chunks)
    ensures |StreamLines(codec, chunks)| == 2 + 4 * |chunks|
    ensures forall l <- StreamLines(codec, chunks) :: OneLine(l)
  {
    ChunksShape(codec, chunks);
  }

  /** A stream of one more chunk is the stream and one more frame. */
  lemma StreamExtends(codec: Codec, chunks: seq<Chunk>, c: Chunk)
    ensures StreamLines(codec, chunks + [c]) == StreamLines(codec, chunks) + ChunkLines(codec, c)
  {
    assert (chunks + [c])[..|chunks|] == chunks;
    ConcatAssoc([": connected", ""], ChunksLines(codec, chunks), ChunkLines(codec, c));
  }

  lemma {:induction false} StreamPrefix(codec: Codec, chunks: seq<Chunk>, i: nat)
    requires i <= |chunks|
    ensures StreamLines(codec, chunks[..i]) <= StreamLines(codec, chunks)
    decreases |chunks| - i
  {
    if i == |chunks| {
      assert chunks[..i] == chunks;
    } else {
      TakeMore(chunks, i);
      StreamExtends(codec, chunks[..i], chunks[i]);
      StreamPrefix(codec, chunks, i + 1);
    }
  }

  /** The opening comment leaves the reader as it was. */
  lemma PreambleRead(codec: Codec, q: nat)
    requires q <= 2
    ensures ReadLines(codec, START, [": connected", ""][..q]) == Clean([])
  {
    SkippedLine(codec, START, ": connected");
    if q > 0 { ReadLinesStep(codec, START, [": connected", ""], 0); }
    if q > 1 { ReadLinesStep(codec, START, [": connected", ""], 1); }
  }

  /** Reading all frames delivers all chunks and leaves nothing pending. */
  lemma {:induction false} StreamRead(codec: Codec, chunks: seq<Chunk>)
    requires GoodCodec(codec) && Numbered(chunks)
    ensures ReadLines(codec, START, StreamLines(codec, chunks)) == Clean(chunks)
  {
    if chunks == [] {
      PreambleRead(codec, 2);
      assert [": connected", ""][..2] == StreamLines(codec, []);
    } else {
      var front, c := chunks[..|chunks| - 1], chunks[|chunks| - 1];
      assert front + [c] == chunks && c in chunks;
      StreamRead(codec, front);
      StreamExtends(codec, front, c);
      ReadLinesConcat(codec, START, StreamLines(codec, front), ChunkLines(codec, c));
      FrameRead(codec, c, front, 4);
      assert ChunkLines(codec, c)[..4] == ChunkLines(codec, c);
    }
  }

  /** The reader after `j` lines of the frame of chunk `i`. */
  lemma ReadInFrame(codec: Codec, chunks: seq<Chunk>, i: nat, j: nat)
    requires GoodCodec(codec) && Numbered(chunks) && i < |chunks| && j <= 4
    ensures var lines := StreamLines(codec, chunks);
            && |ChunkLines(codec, chunks[i])| == 4 && |lines| == 2 + 4 * |chunks|
            && lines[..2 + 4 * i + j] == StreamLines(codec, chunks[..i]) + ChunkLines(codec, chunks[i])[..j]
            && (j < 4 ==> lines[2 + 4 * i + j] == ChunkLines(codec, chunks[i])[j])
            && ReadLines(codec, START, lines[..2 + 4 * i + j]) == FrameState(codec, chunks[i], chunks[..i], j)
  {
    var c, front := chunks[i], chunks[..i];
    assert Numbered(front) && c in chunks;
    StreamShape(codec, chunks);
    StreamShape(codec, front);
    TakeMore(chunks, i);
    StreamExtends(codec, front, c);
    StreamPrefix(codec, chunks, i + 1);
    FrameRead(codec, c, front, j);
    StreamRead(codec, front);
    ReadLinesConcat(codec, START, StreamLines(codec, front), ChunkLines(codec, c)[..j]);
  }

  /** However many whole lines have been read, the chunks delivered are the first
      ones sent, and the reader is still reading. */
  lemma PrefixRead(codec: Codec, chunks: seq<Chunk>, q: nat) returns (i: nat)
    requires GoodCodec(codec) && Numbered(chunks) && q <= |StreamLines(codec, chunks)|
    ensures i <= |chunks|
    ensures var r := ReadLines(codec, START, StreamLines(codec, chunks)[..q]);
            r.delivered == chunks[..i] && r.outcome == Reading
    ensures if q < 2 then i == 0 else i == (q - 2) / 4
  {
    StreamShape(codec, chunks);
    if q < 2 {
      PreambleRead(codec, q);
      assert StreamLines(codec, chunks)[..q] == [": connected", ""][..q];
      i := 0;
    } else if q == 2 + 4 * |chunks| {
      StreamRead(codec, chunks);
      assert StreamLines(codec, chunks)[..q] == StreamLines(codec, chunks);
      i := |chunks|;
      assert chunks[..i] == chunks;
    } else {
      i := (q - 2) / 4;
      ReadInFrame(codec, chunks, i, (q - 2) % 4);
    }
  }

  // ---------------------------------------------------------------------------
  // Cutting the stream at any byte

  /** Where the frames of the first `i` chunks end. */
  function End(codec: Codec, chunks: seq<Chunk>, i: nat): nat
    requires i <= |chunks|
  {
    |Unlines(StreamLines(codec, chunks[..i]))|
  }

  lemma FourLines(lines: seq<string>, j: nat)
    requires |lines| == 4 && j <= 3
    ensures |Unlines(lines)| == |lines[0]| + |lines[1]| + |lines[2]| + |lines[3]| + 4
    ensures |Unlines(lines[..j])| == (if j > 0 then |lines[0]| + 1 else 0) + (if j > 1 then |lines[1]| + 1 else 0)
                                     + (if j > 2 then |lines[2]| + 1 else 0)
  {
    var a, b, c, d := lines[0], lines[1], lines[2], lines[3];
    assert lines == [a] + [b] + [c] + [d];
    UnlinesOne(a); UnlinesOne(b); UnlinesOne(c); UnlinesOne(d);
    UnlinesConcat([a], [b]);
    UnlinesConcat([a] + [b], [c]);
    UnlinesConcat([a] + [b] + [c], [d]);
    assert lines[..3] == [a] + [b] + [c] && lines[..2] == [a] + [b] && lines[..1] == [a];
    assert lines[..0] == [];
  }

  lemma UnlinesOne(l: string)
    ensures Unlines([l]) == l + "\n"
  {
    assert [l][1..] == [];
  }

  /** The end of a chunk's frame, and where a cut inside it lies. */
  lemma CutInFrame(codec: Codec, chunks: seq<Chunk>, i: nat, j: nat, n: nat, m: nat)
    requires GoodCodec(codec) && Numbered(chunks) && i < |chunks| && j <= 3
    requires |ChunkLines(codec, chunks[i])| == 4 && m <= |ChunkLines(codec, chunks[i])[j]|
    requires n == |Unlines(StreamLines(codec, chunks[..i]) + ChunkLines(codec, chunks[i])[..j])| + m
    ensures End(codec, chunks, i) <= n < End(codec, chunks, i + 1)
    ensures n >= End(codec, chunks, i + 1) - 2 <==> j == 3 || (j == 2 && m == |ChunkLines(codec, chunks[i])[2]|)
  {
    var front, frame := StreamLines(codec, chunks[..i]), ChunkLines(codec, chunks[i]);
    assert chunks[i] in chunks;
    TakeMore(chunks, i);
    StreamExtends(codec, chunks[..i], chunks[i]);
    UnlinesConcat(front, frame);
    UnlinesConcat(front, frame[..j]);
    FourLines(frame, j);
    assert frame[3] == "";
  }

  /** A stream that ends after `n` bytes delivers exactly the chunks whose frames are
      complete but for their closing newlines; it never delivers anything else. */
  lemma CutDelivers(codec: Codec, chunks: seq<Chunk>, n: nat) returns (i: nat)
    requires GoodCodec(codec) && Numbered(chunks) && n <= |Unlines(StreamLines(codec, chunks))|
    ensures i <= |chunks|
    ensures var r := ReadBody(codec, Unlines(StreamLines(codec, chunks))[..n]);
            r.delivered == chunks[..i] && (r.outcome == Ended || r.outcome == BadPayload)
    ensures i > 0 ==> n >= End(codec, chunks, i) - 2
    ensures i < |chunks| ==> n < End(codec, chunks, i + 1) - 2
  {
    StreamShape(codec, chunks);
    var k, m := CutBody(codec, StreamLines(codec, chunks), n);
    i := CutCases(codec, chunks, n, k, m);
  }

  /** The reader at the end of a text cut after `k` lines and `m` bytes. */
  function AtCut(codec: Codec, lines: seq<string>, k: nat, m: nat): Reader
    requires k <= |lines|
  {
    Finish(codec, ReadLine(codec, ReadLines(codec, START, lines[..k]), Partial(lines, k, m)))
  }

  lemma CutBody(codec: Codec, lines: seq<string>, n: nat) returns (k: nat, m: nat)
    requires n <= |Unlines(lines)| && forall l <- lines :: OneLine(l)
    ensures CutAt(lines, n, k, m)
    ensures ReadBody(codec, Unlines(lines)[..n]) == AtCut(codec, lines, k, m)
  {
    k, m := CutSplit(lines, n);
    var tail := Partial(lines, k, m);
    ReadLinesConcat(codec, START, lines[..k], [tail]);
    assert [tail][1..] == [];
  }

  lemma CutCases(codec: Codec, chunks: seq<Chunk>, n: nat, k: nat, m: nat) returns (i: nat)
    requires GoodCodec(codec) && Numbered(chunks) && CutAt(StreamLines(codec, chunks), n, k, m)
    ensures i <= |chunks|
    ensures var r := AtCut(codec, StreamLines(codec, chunks), k, m);
            r.delivered == chunks[..i] && (r.outcome == Ended || r.outcome == BadPayload)
    ensures i > 0 ==> n >= End(codec, chunks, i) - 2
    ensures i < |chunks| ==> n < End(codec, chunks, i + 1) - 2
  {
    var lines := StreamLines(codec, chunks);
    StreamShape(codec, chunks);
    if k < 2 {
      i := 0;
      CutInPreamble(codec, chunks, k, m, n);
    } else if k == |lines| {
      i := |chunks|;
      TakeAll(lines);
      TakeAll(chunks);
      StreamRead(codec, chunks);
    } else {
      var f, j := (k - 2) / 4, (k - 2) % 4;
      assert k == 2 + 4 * f + j && f < |chunks|;
      i := CutInside(codec, chunks, n, f, j, m);
    }
  }

  lemma CutInside(codec: Codec, chunks: seq<Chunk>, n: nat, f: nat, j: nat, m: nat) returns (i: nat)
    requires GoodCodec(codec) && Numbered(chunks) && f < |chunks| && j <= 3
    requires 2 + 4 * f + j < |StreamLines(codec, chunks)| && CutAt(StreamLines(codec, chunks), n, 2 + 4 * f + j, m)
    ensures i <= |chunks|
    ensures var r := AtCut(codec, StreamLines(codec, chunks), 2 + 4 * f + j, m);
            r.delivered == chunks[..i] && (r.outcome == Ended || r.outcome == BadPayload)
    ensures i > 0 ==> n >= End(codec, chunks, i) - 2
    ensures i < |chunks| ==> n < End(codec, chunks, i + 1) - 2
  {
    CutReadsStream(codec, chunks, f, j, m);
    CutPlaces(codec, chunks, n, f, j, m);
    i := if KeepsData(codec, chunks[f], j, m) then f + 1 else f;
  }

  lemma CutReadsStream(codec: Codec, chunks: seq<Chunk>, f: nat, j: nat, m: nat)
    requires GoodCodec(codec) && Numbered(chunks) && f < |chunks| && j <= 3
    requires 2 + 4 * f + j < |StreamLines(codec, chunks)| && m <= |StreamLines(codec, chunks)[2 + 4 * f + j]|
    ensures var r := AtCut(codec, StreamLines(codec, chunks), 2 + 4 * f + j, m);
            && r.delivered == chunks[..if KeepsData(codec, chunks[f], j, m) then f + 1 else f]
            && (r.outcome == Ended || r.outcome == BadPayload)
  {
    ReadInFrame(codec, chunks, f, j);
    CutReads(codec, chunks, f, j, m, StreamLines(codec, chunks), 2 + 4 * f + j);
  }

  /** The cut keeps the whole data line of the chunk. */
  predicate KeepsData(codec: Codec, c: Chunk, j: nat, m: nat) {
    j >= 3 || (j == 2 && |ChunkLines(codec, c)| == 4 && m == |ChunkLines(codec, c)[2]|)
  }

  lemma CutReads(codec: Codec, chunks: seq<Chunk>, f: nat, j: nat, m: nat, lines: seq<string>, k: nat)
    requires GoodCodec(codec) && Numbered(chunks) && f < |chunks| && j <= 3
    requires |ChunkLines(codec, chunks[f])| == 4
    requires k < |lines| && lines[k] == ChunkLines(codec, chunks[f])[j] && m <= |lines[k]|
    requires ReadLines(codec, START, lines[..k]) == FrameState(codec, chunks[f], chunks[..f], j)
    ensures var r := AtCut(codec, lines, k, m);
            && r.delivered == chunks[..if KeepsData(codec, chunks[f], j, m) then f + 1 else f]
            && (r.outcome == Ended || r.outcome == BadPayload)
  {
    assert Partial(lines, k, m) == Partial(ChunkLines(codec, chunks[f]), j, m);
    assert chunks[f] in chunks;
    FrameCut(codec, chunks[f], chunks[..f], j, m);
    TakeMore(chunks, f);
  }

  lemma CutPlaces(codec: Codec, chunks: seq<Chunk>, n: nat, f: nat, j: nat, m: nat)
    requires GoodCodec(codec) && Numbered(chunks) && f < |chunks| && j <= 3
    requires CutAt(StreamLines(codec, chunks), n, 2 + 4 * f + j, m)
    ensures var i := if KeepsData(codec, chunks[f], j, m) then f + 1 else f;
            && (i > 0 ==> n >= End(codec, chunks, i) - 2)
            && (i < |chunks| ==> n < End(codec, chunks, i + 1) - 2)
  {
    CutWhere(codec, chunks, n, f, j, m);
    if f + 1 < |chunks| { EndGrows(codec, chunks, f + 1); }
  }

  /** A cut inside the frame of a chunk lies between the ends of two frames. */
  lemma CutWhere(codec: Codec, chunks: seq<Chunk>, n: nat, f: nat, j: nat, m: nat)
    requires GoodCodec(codec) && Numbered(chunks) && f < |chunks| && j <= 3
    requires CutAt(StreamLines(codec, chunks), n, 2 + 4 * f + j, m)
    ensures End(codec, chunks, f) <= n < End(codec, chunks, f + 1)
    ensures n >= End(codec, chunks, f + 1) - 2 <==> KeepsData(codec, chunks[f], j, m)
  {
    ReadInFrame(codec, chunks, f, j);
    CutInFrame(codec, chunks, f, j, n, m);
  }

  lemma EndGrows(codec: Codec, chunks: seq<Chunk>, i: nat)
    requires GoodCodec(codec) && Numbered(chunks) && i < |chunks|
    ensures End(codec, chunks, i + 1) >= End(codec, chunks, i) + 4
  {
    assert chunks[i] in chunks;
    TakeMore(chunks, i);
    StreamExtends(codec, chunks[..i], chunks[i]);
    UnlinesConcat(StreamLines(codec, chunks[..i]), ChunkLines(codec, chunks[i]));
    FrameRead(codec, chunks[i], [], 0);
    FourLines(ChunkLines(codec, chunks[i]), 0);
  }

  lemma CutInPreamble(codec: Codec, chunks: seq<Chunk>, k: nat, m: nat, n: nat)
    requires GoodCodec(codec) && Numbered(chunks) && k < 2
    requires CutAt(StreamLines(codec, chunks), n, k, m)
    ensures AtCut(codec, StreamLines(codec, chunks), k, m) == Clean([]).(outcome := Ended)
    ensures chunks != [] ==> n < End(codec, chunks, 1) - 2
  {
    var lines := StreamLines(codec, chunks);
    StreamShape(codec, chunks);
    PreambleRead(codec, k);
    assert lines[..k] == [": connected", ""][..k];
    var l := Partial(lines, k, m);
    if l != "" { SkippedLine(codec, Clean([]), l); }
    UnlinesOne(": connected");
    assert [": connected", ""][..1] == [": connected"] && [": connected", ""][..0] == [];
    if chunks != [] {
      EndGrows(codec, chunks, 0);
      assert chunks[..0] == [];
      assert StreamLines(codec, []) == [": connected"] + [""];
      UnlinesConcat([": connected"], [""]);
      UnlinesOne("");
    }
  }

  /** Without a cut, every chunk written is read back, in order. */
  lemma StreamRoundTrip(codec: Codec, chunks: seq<Chunk>)
    requires GoodCodec(codec) && Numbered(chunks)
    ensures ReadBody(codec, Unlines(StreamLines(codec, chunks))).delivered == chunks
    ensures ReadBody(codec, Unlines(StreamLines(codec, chunks))).outcome == Ended
  {
    var lines := StreamLines(codec, chunks);
    StreamShape(codec, chunks);
    SplitUnlines(lines, "");
    SplitPlain("", '\n');
    assert Unlines(lines) + "" == Unlines(lines);
    ReadLinesConcat(codec, START, lines, [""]);
    StreamRead(codec, chunks);
    assert [""][1..] == [];
  }

  // ---------------------------------------------------------------------------
  // The closing frame

  /** Nothing is delivered while a type other than `chunk` is pending. */
  lemma SilentLine(codec: Codec, r: Reader, l: string)
    requires r.outcome == Reading && r.kind != "chunk" && OneLine(l) && (l == "" || l[0] != 'e')
    ensures ReadLine(codec, r, l).delivered == r.delivered
    ensures ReadLine(codec, r, l).kind == r.kind || ReadLine(codec, r, l).kind == "message"
  {
    TrimLinePlain(l);
    PrefixStarts(l, "event:");
  }

  /** However much of the closing frame is read, no chunk comes out of it. */
  lemma ClosingRead(codec: Codec, d: seq<Chunk>, last: seq<string>, k: nat, m: nat)
    requires Closing(last) && k <= |last| && (k < |last| ==> m <= |last[k]|)
    ensures var r := ReadLines(codec, Clean(d), last[..k]);
            r.delivered == d && Finish(codec, ReadLine(codec, r, Partial(last, k, m))).delivered == d
    ensures forall l <- last :: OneLine(l)
    ensures k == |last| && last != [] ==> ReadLines(codec, Clean(d), last[..k]).outcome != Reading
  {
    if last != [] {
      var kind, payload :| (kind == "timeout" || kind == "error") && OneLine(payload) && last == FrameLines(kind, 0, payload);
      FrameOneLine(kind, 0, payload);
      assert Trimmed("timeout") && Trimmed("error");
      ClosingFrame(codec, d, kind, payload, k);
      ClosingCut(codec, d, kind, payload, k, m);
    }
  }

  lemma ClosingCut(codec: Codec, d: seq<Chunk>, kind: string, payload: string, k: nat, m: nat)
    requires kind != "chunk" && OneLine(kind) && OneLine(payload) && k <= 3
    requires k < 3 ==> m <= |FrameLines(kind, 0, payload)[k]|
    ensures var lines := FrameLines(kind, 0, payload);
            Finish(codec, ReadLine(codec, ClosingState(codec, d, kind, payload, k), Partial(lines, k, m))).delivered == d
  {
    if k == 0 {
      EventPart(kind, m);
      EventCut(codec, d, Field("event:", kind)[..m]);
    } else if k == 1 {
      FieldParts("data:", payload);
      FieldOneLine("data:", payload);
      SilentLine(codec, Reader(kind, [], d, Reading), Field("data:", payload)[..m]);
    }
  }

  /** The reader after `j` lines of a closing frame. */
  function ClosingState(codec: Codec, d: seq<Chunk>, kind: string, payload: string, j: nat): Reader {
    if j == 0 then Clean(d)
    else if j == 1 then Reader(kind, [], d, Reading)
    else if j == 2 then Reader(kind, [Trim(" " + payload)], d, Reading)
    else Flush(codec, Reader(kind, [Trim(" " + payload)], d, Reading))
  }

  lemma ClosingStep(codec: Codec, d: seq<Chunk>, kind: string, payload: string, j: nat)
    requires Trimmed(kind) && OneLine(kind) && OneLine(payload) && j < 3
    ensures ReadLine(codec, ClosingState(codec, d, kind, payload, j), FrameLines(kind, 0, payload)[j]) ==
            ClosingState(codec, d, kind, payload, j + 1)
  {
    if j == 0 {
      KindLineRead(codec, Clean(d), kind);
    } else if j == 1 {
      FieldParts("data:", payload);
      FieldOneLine("data:", payload);
      DataLineRead(codec, Reader(kind, [], d, Reading), Field("data:", payload));
    }
  }

  lemma {:induction false} ClosingFrame(codec: Codec, d: seq<Chunk>, kind: string, payload: string, k: nat)
    requires Trimmed(kind) && OneLine(kind) && OneLine(payload) && k <= 3
    ensures |FrameLines(kind, 0, payload)| == 3
    ensures ReadLines(codec, Clean(d), FrameLines(kind, 0, payload)[..k]) == ClosingState(codec, d, kind, payload, k)
  {
    if k > 0 {
      ClosingFrame(codec, d, kind, payload, k - 1);
      ReadLinesStep(codec, Clean(d), FrameLines(kind, 0, payload), k - 1);
      ClosingStep(codec, d, kind, payload, k - 1);
    }
  }
}
