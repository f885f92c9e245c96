/** The chunked parser of the worker's JSON event stream: one wire line at a time, spooled to a file when long. */
module PiParser {
  import opened Collections
  import opened Outcomes
  import opened BoundedTail
  import opened LineStream
  import opened FileLines

  const MEMORY_BYTES: nat := 64 * 1024

  /** The bytes of one line: in memory while short, in a file from then on. */
  class PiLineSpool {
    var memory: seq<byte>
    var file: Option<seq<byte>>

    ghost predicate Valid()
      reads this
    {
      |memory| <= MEMORY_BYTES && (file.Some? ==> memory == [])
    }

    /** Everything written so far. */
    function Content(): seq<byte>
      reads this
    {
      if file.Some? then file.value else memory
    }

    constructor ()
      ensures Valid() && |Content()| == 0
    {
      memory, file := [], None;
    }

    /** Creating the spool file or writing to it may fail; a failed write ends the parse. */
    method WriteAll(bytes: seq<byte>, fileFails: bool) returns (ok: bool)
      requires Valid()
      modifies this
      ensures Valid()
      ensures ok ==> Content() == old(Content()) + bytes
      ensures !fileFails ==> ok
      ensures old(file).None? && |old(memory)| + |bytes| <= MEMORY_BYTES ==> ok && file.None?
    {
      if file.None? && |memory| + |bytes| > MEMORY_BYTES {
        if fileFails {
          return false;
        }
        file := Some(memory);
        memory := [];
      }
      if file.Some? {
        if fileFails {
          return false;
        }
        file := Some(file.value + bytes);
      } else {
        memory := memory + bytes;
      }
      ok := true;
    }
  }

  /** A segment of a chunk as the reader cuts it: within one line, between line ends or the chunk's ends. */
  ghost predicate IsSegment(chunk: seq<byte>, i: nat, j: nat) {
    && i <= j <= |chunk| && OneLine(chunk[i..j])
    && (i == 0 || chunk[i - 1] == NEWLINE) && (j == |chunk| || chunk[j] == NEWLINE)
  }

  /** The segments of the chunk decode to themselves, as they do when no character straddles a chunk end. */
  ghost predicate TextChunk(rt: Runtime, chunk: seq<byte>) {
    forall i: nat, j: nat {:trigger IsSegment(chunk, i, j)} :: IsSegment(chunk, i, j) ==> rt.lossy(chunk[i..j]) == chunk[i..j]
  }

  ghost predicate AllText(rt: Runtime, chunks: seq<seq<byte>>) {
    forall i :: 0 <= i < |chunks| ==> TextChunk(rt, chunks[i])
  }

  /** The display text of complete text lines. */
  ghost function Tails(rt: Runtime, lines: seq<seq<byte>>): seq<seq<byte>> {
    if lines == [] then []
    else Tails(rt, lines[..|lines| - 1]) + [Tail(lines[|lines| - 1], rt.maxBytes, rt.maxLines)]
  }

  ghost function NonEmpty(lines: seq<seq<byte>>): seq<seq<byte>> {
    if lines == [] then []
    else NonEmpty(lines[..|lines| - 1]) + if lines[|lines| - 1] == [] then [] else [lines[|lines| - 1]]
  }

  lemma OneMoreLine(rt: Runtime, lines: seq<seq<byte>>, line: seq<byte>)
    ensures Tails(rt, lines + [line]) == Tails(rt, lines) + [Tail(line, rt.maxBytes, rt.maxLines)]
    ensures NonEmpty(lines + [line]) == NonEmpty(lines) + if line == [] then [] else [line]
  {
    assert (lines + [line])[..|lines|] == lines;
  }

  /** The display tail and length of the line being read, and what has been handed on so far, in order: the
      bytes parsed as events and the texts sent for display. */
  datatype Wire = Wire(lineTail: seq<byte>, lineBytes: nat, parsed: seq<seq<byte>>, displayed: seq<seq<byte>>)

  /** The line in progress. `asText` says that all segments so far decoded to themselves. */
  ghost predicate LineState(rt: Runtime, line: seq<byte>, content: seq<byte>, w: Wire, asText: bool) {
    && content == line && w.lineBytes == |line| && WellFormed(w.lineTail)
    && (asText ==> WellFormed(line) && w.lineTail == Tail(line, rt.maxBytes, rt.maxLines))
  }

  ghost predicate Handled(rt: Runtime, lines: seq<seq<byte>>, w: Wire, asText: bool) {
    && w.parsed == NonEmpty(lines) && |w.displayed| == |lines|
    && (asText ==> w.displayed == Tails(rt, lines))
  }

  /** The state of the parse after the bytes `seen`. */
  ghost predicate Follows(rt: Runtime, seen: seq<byte>, content: seq<byte>, w: Wire, asText: bool) {
    LineState(rt, Partial(seen), content, w, asText) && Handled(rt, Complete(seen), w, asText)
  }

  const START := Wire([], 0, [], [])

  lemma LineStarts(rt: Runtime, line: seq<byte>, content: seq<byte>, w: Wire, asText: bool)
    requires |line| == |content| == |w.lineTail| == w.lineBytes == 0
    ensures LineState(rt, line, content, w, asText)
  {
    TailOfEmpty(line, rt.maxBytes, rt.maxLines);
    assert line == content == w.lineTail;
  }

  lemma FollowsStart(rt: Runtime, seen: seq<byte>, content: seq<byte>, w: Wire)
    requires |seen| == |content| == |w.lineTail| == w.lineBytes == |w.parsed| == |w.displayed| == 0
    ensures Follows(rt, seen, content, w, true)
  {
    LineStarts(rt, Partial(seen), content, w, true);
  }

  lemma FollowPayload(rt: Runtime, seen: seq<byte>, content: seq<byte>, w: Wire, asText: bool,
                      payload: seq<byte>, decoded: seq<byte>, longer: seq<byte>)
    requires Follows(rt, seen, content, w, asText) && OneLine(payload)
    requires WellFormed(decoded) && longer == Tail(w.lineTail + decoded, rt.maxBytes, rt.maxLines) && WellFormed(longer)
    ensures Follows(rt, seen + payload, content + payload, w.(lineTail := longer, lineBytes := w.lineBytes + |payload|),
                    asText && decoded == payload)
  {
    if asText && decoded == payload {
      WellFormedConcat(Partial(seen), payload);
      TailOfTail(Partial(seen), payload, rt.maxBytes, rt.maxLines);
    }
    AppendPayload(seen, payload);
  }

  /** Hands a line on: always to the display, and to the event parser when it is not empty. */
  function HandOn(w: Wire, content: seq<byte>): Wire {
    w.(displayed := w.displayed + [w.lineTail],
       parsed := if w.lineBytes == 0 then w.parsed else w.parsed + [content])
  }

  lemma HandOnOneMore(rt: Runtime, lines: seq<seq<byte>>, w: Wire, asText: bool, line: seq<byte>)
    requires Handled(rt, lines, w, asText) && LineState(rt, line, line, w, asText)
    ensures Handled(rt, lines + [line], HandOn(w, line), asText)
  {
    OneMoreLine(rt, lines, line);
    assert NonEmpty(lines) + [] == NonEmpty(lines);
  }

  lemma FollowNewline(rt: Runtime, seen: seq<byte>, content: seq<byte>, w: Wire, asText: bool, next: Wire, none: seq<byte>)
    requires Follows(rt, seen, content, w, asText)
    requires next == HandOn(w, content).(lineTail := none, lineBytes := 0) && |none| == 0
    ensures Follows(rt, seen + [NEWLINE], none, next, asText)
  {
    HandOnOneMore(rt, Complete(seen), w, asText, Partial(seen));
    AppendNewline(seen);
    LineStarts(rt, Partial(seen + [NEWLINE]), none, next, asText);
  }

  /** The end of the stream hands on an unterminated last line, if there is one. */
  lemma FollowEnd(rt: Runtime, seen: seq<byte>, content: seq<byte>, w: Wire, asText: bool)
    requires Follows(rt, seen, content, w, asText)
    ensures Handled(rt, AllLines(seen), if w.lineBytes > 0 then HandOn(w, content) else w, asText)
  {
    if w.lineBytes > 0 {
      HandOnOneMore(rt, Complete(seen), w, asText, Partial(seen));
    } else {
      assert Complete(seen) + [] == Complete(seen);
    }
  }

  lemma SegmentIs(chunk: seq<byte>, at: nat, next: nat, payload: seq<byte>, complete: bool)
    requires at < next <= |chunk| && chunk[at..next] == payload + if complete then [NEWLINE] else []
    requires (at == 0 || chunk[at - 1] == NEWLINE) && (!complete ==> next == |chunk|) && OneLine(payload)
    ensures IsSegment(chunk, at, at + |payload|) && payload == chunk[at..at + |payload|]
    ensures complete ==> chunk[next - 1] == NEWLINE
  {
    var segment := chunk[at..next];
    assert forall k :: 0 <= k < |payload| ==> chunk[at + k] == segment[k] == payload[k];
    if complete {
      assert segment[|payload|] == NEWLINE && next == at + |payload| + 1;
    } else {
      assert |segment| == |payload|;
    }
    assert chunk[at..at + |payload|] == payload;
  }

  /** Displays the bounded tail of every line, and parses the whole spooled line if it is not empty. */
  method HandleWireLine(w: Wire, line: PiLineSpool) returns (w': Wire)
    ensures w' == HandOn(w, line.Content())
    ensures w'.displayed == w.displayed + [w.lineTail]
    ensures w'.parsed == if w.lineBytes == 0 then w.parsed else w.parsed + [line.Content()]
  {
    w' := w.(displayed := w.displayed + [w.lineTail]);
    if w.lineBytes == 0 {
      return;
    }
    w' := w'.(parsed := w'.parsed + [line.Content()]);
  }

  method TakePayload(rt: Runtime, payload: seq<byte>, fileFails: bool, line: PiLineSpool, w: Wire,
                     ghost seen: seq<byte>, ghost asText: bool)
    returns (ok: bool, w': Wire)
    requires Decodes(rt) && line.Valid() && OneLine(payload) && Follows(rt, seen, line.Content(), w, asText)
    modifies line
    ensures line.Valid() && (!fileFails ==> ok)
    ensures ok ==> Follows(rt, seen + payload, line.Content(), w', asText && rt.lossy(payload) == payload)
  {
    w' := w;
    ok := line.WriteAll(payload, fileFails);
    if !ok {
      return;
    }
    var decoded := rt.lossy(payload);
    var tail := AppendBounded(w.lineTail, decoded, rt.maxBytes, rt.maxLines);
    FollowPayload(rt, seen, old(line.Content()), w, asText, payload, decoded, tail);
    w' := w.(lineTail := tail, lineBytes := w.lineBytes + |payload|);
  }

  /** One segment: its payload, and the end of the line if it has one. */
  method TakeSegment(rt: Runtime, payload: seq<byte>, complete: bool, fileFails: bool, line0: PiLineSpool, w0: Wire,
                     ghost seen: seq<byte>, ghost asText: bool)
    returns (ok: bool, line: PiLineSpool, w: Wire)
    requires Decodes(rt) && line0.Valid() && OneLine(payload) && Follows(rt, seen, line0.Content(), w0, asText)
    modifies line0
    ensures line.Valid() && (line == line0 || fresh(line)) && (!fileFails ==> ok)
    ensures ok ==> Follows(rt, seen + payload + if complete then [NEWLINE] else [], line.Content(), w,
                           asText && rt.lossy(payload) == payload)
  {
    line := line0;
    ok, w := TakePayload(rt, payload, fileFails, line, w0, seen, asText);
    if ok && complete {
      ghost var content, before := line.Content(), w;
      w := HandleWireLine(w, line);
      line := new PiLineSpool();
      w := w.(lineTail := [], lineBytes := 0);
      FollowNewline(rt, seen + payload, content, before, asText && rt.lossy(payload) == payload, w, line.Content());
    } else {
      assert seen + payload + [] == seen + payload;
    }
  }

  ghost predicate AtSegment(chunk: seq<byte>, at: nat)
    requires at <= |chunk|
  {
    at == 0 || chunk[at - 1] == NEWLINE
  }

  /** The state of the parse after `at` bytes of a chunk, where the segments before it were text or not. */
  ghost predicate InChunk(rt: Runtime, seen: seq<byte>, chunk: seq<byte>, at: nat, before: bool,
                          content: seq<byte>, w: Wire, asText: bool) {
    && at <= |chunk| && (at < |chunk| ==> AtSegment(chunk, at))
    && Follows(rt, seen + chunk[..at], content, w, asText)
    && (before && TextChunk(rt, chunk) ==> asText)
  }

  lemma InChunkStart(rt: Runtime, seen: seq<byte>, chunk: seq<byte>, content: seq<byte>, w: Wire, asText: bool)
    requires Follows(rt, seen, content, w, asText)
    ensures InChunk(rt, seen, chunk, 0, asText, content, w, asText)
  {
    assert seen + chunk[..0] == seen;
  }

  lemma InChunkEnd(rt: Runtime, seen: seq<byte>, chunk: seq<byte>, before: bool, content: seq<byte>, w: Wire, asText: bool)
    requires InChunk(rt, seen, chunk, |chunk|, before, content, w, asText)
    ensures Follows(rt, seen + chunk, content, w, asText) && (before && TextChunk(rt, chunk) ==> asText)
  {
    assert chunk[..|chunk|] == chunk;
  }

  lemma ChunkStep(rt: Runtime, seen: seq<byte>, chunk: seq<byte>, at: nat, next: nat, payload: seq<byte>, complete: bool)
    requires at < next <= |chunk| && chunk[at..next] == payload + if complete then [NEWLINE] else []
    requires AtSegment(chunk, at) && (!complete ==> next == |chunk|) && OneLine(payload)
    ensures seen + chunk[..next] == seen + chunk[..at] + payload + if complete then [NEWLINE] else []
    ensures next < |chunk| ==> AtSegment(chunk, next)
    ensures TextChunk(rt, chunk) ==> rt.lossy(payload) == payload
  {
    SegmentIs(chunk, at, next, payload, complete);
    ConcatSlice(seen, chunk, at, next);
    ConcatAssoc(seen + chunk[..at], payload, if complete then [NEWLINE] else []);
  }

  /** One more segment. */
  lemma InChunkNext(rt: Runtime, seen: seq<byte>, chunk: seq<byte>, at: nat, before: bool, content0: seq<byte>, w0: Wire, asText0: bool,
                    payload: seq<byte>, complete: bool, next: nat, content: seq<byte>, w: Wire)
    requires InChunk(rt, seen, chunk, at, before, content0, w0, asText0)
    requires at < next <= |chunk| && chunk[at..next] == payload + if complete then [NEWLINE] else []
    requires (!complete ==> next == |chunk|) && OneLine(payload)
    requires Follows(rt, seen + chunk[..at] + payload + (if complete then [NEWLINE] else []), content, w,
                     asText0 && rt.lossy(payload) == payload)
    ensures InChunk(rt, seen, chunk, next, before, content, w, asText0 && rt.lossy(payload) == payload)
  {
    ChunkStep(rt, seen, chunk, at, next, payload, complete);
  }

  method ParseChunk(rt: Runtime, chunk: seq<byte>, fileFails: bool, line0: PiLineSpool, w0: Wire,
                    ghost seen: seq<byte>, ghost asText: bool)
    returns (ok: bool, line: PiLineSpool, w: Wire, ghost asText': bool)
    requires Decodes(rt) && line0.Valid() && Follows(rt, seen, line0.Content(), w0, asText)
    modifies line0
    ensures line.Valid() && (line == line0 || fresh(line)) && (!fileFails ==> ok)
    ensures ok ==> Follows(rt, seen + chunk, line.Content(), w, asText')
    ensures ok && asText && TextChunk(rt, chunk) ==> asText'
  {
    ok, line, w, asText' := true, line0, w0, asText;
    var at := 0;
    InChunkStart(rt, seen, chunk, line.Content(), w, asText);
    while at < |chunk|
      invariant ok && line.Valid() && (line == line0 || fresh(line))
      invariant InChunk(rt, seen, chunk, at, asText, line.Content(), w, asText')
    {
      var payload, complete, next := NextSegment(chunk, at);
      ghost var content0, before := line.Content(), w;
      ok, line, w := TakeSegment(rt, payload, complete, fileFails, line, w, seen + chunk[..at], asText');
      if !ok {
        return;
      }
      InChunkNext(rt, seen, chunk, at, asText, content0, before, asText', payload, complete, next, line.Content(), w);
      asText' := asText' && rt.lossy(payload) == payload;
      at := next;
    }
    InChunkEnd(rt, seen, chunk, asText, line.Content(), w, asText');
  }

  /** The state of the parse after `i` chunks. */
  ghost predicate Parsing(rt: Runtime, chunks: seq<seq<byte>>, i: nat, content: seq<byte>, w: Wire, asText: bool) {
    && i <= |chunks| && Follows(rt, Concat(chunks[..i]), content, w, asText)
    && (AllText(rt, chunks) ==> asText)
  }

  lemma ParsingNext(rt: Runtime, chunks: seq<seq<byte>>, i: nat, asText: bool, content: seq<byte>, w: Wire, asText': bool)
    requires i < |chunks| && (AllText(rt, chunks) ==> asText) && (asText && TextChunk(rt, chunks[i]) ==> asText')
    requires Follows(rt, Concat(chunks[..i]) + chunks[i], content, w, asText')
    ensures Parsing(rt, chunks, i + 1, content, w, asText')
  {
    ConcatOneMore(chunks, i);
  }

  lemma ParsingEnd(rt: Runtime, chunks: seq<seq<byte>>, content: seq<byte>, w: Wire, asText: bool)
    requires Parsing(rt, chunks, |chunks|, content, w, asText)
    ensures Handled(rt, AllLines(Concat(chunks)), if w.lineBytes > 0 then HandOn(w, content) else w, AllText(rt, chunks))
  {
    ConcatAll(chunks);
    FollowEnd(rt, Concat(chunks), content, w, asText);
  }

  /** Parses a stream that arrives in the given chunks. However it was cut, the bytes parsed as events are the
      non-empty lines of the whole stream, in order and untouched by the retention bounds; and the
      displayed tails are those of the lines whenever every segment is text. */
  method Parse(rt: Runtime, chunks: seq<seq<byte>>, fileFails: bool)
    returns (ok: bool, parsed: seq<seq<byte>>, displayed: seq<seq<byte>>)
    requires Decodes(rt)
    ensures ok ==> parsed == NonEmpty(AllLines(Concat(chunks)))
    ensures ok ==> |displayed| == |AllLines(Concat(chunks))|
    ensures ok && AllText(rt, chunks) ==> displayed == Tails(rt, AllLines(Concat(chunks)))
    ensures !fileFails ==> ok
  {
    var line := new PiLineSpool();
    var w := START;
    ghost var asText := true;
    ok, parsed, displayed := true, [], [];
    FollowsStart(rt, Concat(chunks[..0]), line.Content(), w);
    assert Parsing(rt, chunks, 0, line.Content(), w, asText);
    for i := 0 to |chunks|
      invariant fresh(line) && line.Valid() && ok
      invariant Parsing(rt, chunks, i, line.Content(), w, asText)
    {
      ghost var before := asText;
      ok, line, w, asText := ParseChunk(rt, chunks[i], fileFails, line, w, Concat(chunks[..i]), before);
      if !ok {
        return;
      }
      ParsingNext(rt, chunks, i, before, line.Content(), w, asText);
    }
    ParsingEnd(rt, chunks, line.Content(), w, asText);
    if w.lineBytes > 0 {
      w := HandleWireLine(w, line);
    }
    parsed, displayed := w.parsed, w.displayed;
  }
}
