/** A byte stream as lines: the complete ones and the unterminated rest, however the stream arrives. */
module LineStream {
  import opened BoundedTail

  ghost function Partial(s: seq<byte>): seq<byte> {
    if s == [] || s[|s| - 1] == NEWLINE then [] else Partial(s[..|s| - 1]) + [s[|s| - 1]]
  }

  ghost function Complete(s: seq<byte>): seq<seq<byte>> {
    if s == [] then []
    else if s[|s| - 1] == NEWLINE then Complete(s[..|s| - 1]) + [Partial(s[..|s| - 1])]
    else Complete(s[..|s| - 1])
  }

  /** The lines once the stream has ended: an unterminated last line counts if it is not empty. */
  ghost function AllLines(s: seq<byte>): seq<seq<byte>> {
    Complete(s) + if Partial(s) == [] then [] else [Partial(s)]
  }

  ghost predicate OneLine(s: seq<byte>) {
    forall i :: 0 <= i < |s| ==> s[i] != NEWLINE
  }

  ghost function Terminated(lines: seq<seq<byte>>): seq<byte> {
    if lines == [] then [] else Terminated(lines[..|lines| - 1]) + lines[|lines| - 1] + [NEWLINE]
  }

  // ---- how lines grow

  lemma {:induction false} AppendPayload(s: seq<byte>, payload: seq<byte>)
    requires OneLine(payload)
    ensures Complete(s + payload) == Complete(s)
    ensures Partial(s + payload) == Partial(s) + payload
  {
    if payload == [] {
      assert s + payload == s;
    } else {
      var front := payload[..|payload| - 1];
      assert (s + payload)[..|s + payload| - 1] == s + front;
      AppendPayload(s, front);
      assert payload == front + [payload[|front|]];
    }
  }

  lemma AppendNewline(s: seq<byte>)
    ensures Complete(s + [NEWLINE]) == Complete(s) + [Partial(s)]
    ensures Partial(s + [NEWLINE]) == []
  {
    assert (s + [NEWLINE])[..|s|] == s;
  }

  // ---- splitting and joining are inverse

  ghost predicate AllOneLine(lines: seq<seq<byte>>) {
    forall i :: 0 <= i < |lines| ==> OneLine(lines[i])
  }

  lemma {:induction false} SplitJoins(s: seq<byte>)
    ensures Terminated(Complete(s)) + Partial(s) == s
    ensures OneLine(Partial(s)) && AllOneLine(Complete(s))
  {
    if s != [] {
      var front, last := s[..|s| - 1], s[|s| - 1];
      SplitJoins(front);
      assert s == front + [last];
      if last == NEWLINE {
        TerminateOneMore(Complete(front), Partial(front));
      }
    }
  }

  lemma TerminateOneMore(lines: seq<seq<byte>>, line: seq<byte>)
    ensures Terminated(lines + [line]) == Terminated(lines) + line + [NEWLINE]
    ensures AllOneLine(lines) && OneLine(line) ==> AllOneLine(lines + [line])
  {
    assert (lines + [line])[..|lines|] == lines;
  }

  lemma {:induction false} JoinSplits(lines: seq<seq<byte>>, rest: seq<byte>)
    requires OneLine(rest) && AllOneLine(lines)
    ensures Complete(Terminated(lines) + rest) == lines && Partial(Terminated(lines) + rest) == rest
  {
    AppendPayload(Terminated(lines), rest);
    if lines != [] {
      var last := |lines| - 1;
      JoinSplits(lines[..last], lines[last]);
      AppendNewline(Terminated(lines[..last]) + lines[last]);
      assert lines == lines[..last] + [lines[last]];
    }
    assert Terminated(lines) + [] == Terminated(lines);
  }

  lemma {:induction false} LinesAre(s: seq<byte>)
    ensures |AllLines(s)| == Newlines(s) + if s != [] && s[|s| - 1] != NEWLINE then 1 else 0
    ensures |AllLines(s)| == Lines(s)
    ensures |Complete(s)| == Newlines(s)
  {
    LinesCountNewlines(s);
    if s != [] {
      var front := s[..|s| - 1];
      LinesAre(front);
      NewlinesConcat(front, [s[|front|]]);
      assert s == front + [s[|front|]];
    }
  }

  lemma {:induction false} NewlinesConcat(a: seq<byte>, b: seq<byte>)
    ensures Newlines(a + b) == Newlines(a) + Newlines(b)
  {
    if a == [] {
      assert a + b == b;
    } else {
      assert (a + b)[1..] == a[1..] + b;
      NewlinesConcat(a[1..], b);
    }
  }

  /** Behind a complete line the stream starts afresh. */
  lemma {:induction false} CompleteRestarts(s: seq<byte>, more: seq<byte>)
    requires Partial(s) == []
    ensures Complete(s + more) == Complete(s) + Complete(more) && Partial(s + more) == Partial(more)
  {
    if more == [] {
      assert s + more == s;
    } else {
      assert (s + more)[..|s + more| - 1] == s + more[..|more| - 1];
      CompleteRestarts(s, more[..|more| - 1]);
    }
  }

  // ---- chunks as they are read

  /** The next segment of a chunk: up to and including a newline, or to the end. */
  method NextSegment(chunk: seq<byte>, from: nat) returns (payload: seq<byte>, complete: bool, next: nat)
    requires from < |chunk|
    ensures from < next <= |chunk| && OneLine(payload)
    ensures chunk[from..next] == payload + if complete then [NEWLINE] else []
    ensures !complete ==> next == |chunk|
  {
    var end := from;
    while end < |chunk| && chunk[end] != NEWLINE
      invariant from <= end <= |chunk| && forall i :: from <= i < end ==> chunk[i] != NEWLINE
    {
      end := end + 1;
    }
    payload, complete := chunk[from..end], end < |chunk|;
    next := if complete then end + 1 else end;
  }

  // ---- counting while copying

  /** Line statistics of a stream that is copied to a spill file. */
  class OutputSpillStats {
    var bytes: nat
    var newlineCount: nat
    var endsWithNewline: bool
    ghost var seen: seq<byte>

    ghost predicate Valid()
      reads this
    {
      && bytes == |seen| && newlineCount == Newlines(seen)
      && (bytes > 0 ==> endsWithNewline == (seen[|seen| - 1] == NEWLINE))
    }

    constructor ()
      ensures Valid() && seen == []
    {
      bytes, newlineCount, endsWithNewline, seen := 0, 0, false, [];
    }

    /** One read of the copied stream; the spill is written before the statistics change. */
    method Read(chunk: seq<byte>, spillFails: bool) returns (ok: bool)
      requires Valid()
      modifies this
      ensures Valid() && ok == (chunk == [] || !spillFails)
      ensures seen == if ok then old(seen) + chunk else old(seen)
    {
      if chunk == [] {
        return true;
      }
      if spillFails {
        return false;
      }
      bytes := bytes + |chunk|;
      var count := 0;
      for i := 0 to |chunk|
        invariant count == Newlines(chunk[..i]) && bytes == |seen| + |chunk| && newlineCount == Newlines(seen)
        modifies {}
      {
        NewlinesConcat(chunk[..i], [chunk[i]]);
        assert chunk[..i + 1] == chunk[..i] + [chunk[i]];
        if chunk[i] == NEWLINE {
          count := count + 1;
        }
      }
      assert chunk[..|chunk|] == chunk;
      NewlinesConcat(seen, chunk);
      newlineCount := newlineCount + count;
      endsWithNewline := chunk[|chunk| - 1] == NEWLINE;
      seen := seen + chunk;
      ok := true;
    }

    /** The lines of everything copied so far. */
    method LineCount() returns (n: nat)
      requires Valid()
      ensures n == |AllLines(seen)|
    {
      LinesAre(seen);
      n := newlineCount + if bytes > 0 && !endsWithNewline then 1 else 0;
    }
  }
}
