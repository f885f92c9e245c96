/** The painter of a worker's activity: it polls the worker's output file for complete lines, and ends at the
    first poll that finds something other than text. */
module ActivityPainter {
  import opened BoundedTail
  import opened Collections
  import opened FileLines
  import opened LineStream
  import opened Outcomes
  import opened Utf8Text

  // ---- one poll

  /** Without the carriage returns at its end. */
  function StripReturns(line: seq<byte>): (r: seq<byte>)
    ensures |r| <= |line| && r == line[..|r|] && (|r| > 0 ==> r[|r| - 1] != RETURN)
    ensures forall i :: |r| <= i < |line| ==> line[i] == RETURN
  {
    if |line| > 0 && line[|line| - 1] == RETURN then StripReturns(line[..|line| - 1]) else line
  }

  ghost function StripAll(lines: seq<seq<byte>>): (stripped: seq<seq<byte>>)
    ensures |stripped| == |lines| && forall i :: 0 <= i < |lines| ==> stripped[i] == StripReturns(lines[i])
  {
    seq(|lines|, i requires 0 <= i < |lines| => StripReturns(lines[i]))
  }

  lemma StripConcat(a: seq<seq<byte>>, b: seq<seq<byte>>)
    ensures StripAll(a + b) == StripAll(a) + StripAll(b)
  {
  }

  lemma StripOneMore(lines: seq<seq<byte>>, line: seq<byte>)
    ensures StripAll(lines + [line]) == StripAll(lines) + [StripReturns(line)]
  {
  }

  method StripLineEnd(line: seq<byte>) returns (r: seq<byte>)
    ensures r == StripReturns(line)
  {
    r := line;
    while r != [] && r[|r| - 1] == RETURN
      invariant StripReturns(r) == StripReturns(line)
    {
      r := r[..|r| - 1];
    }
  }

  /** The complete lines from `start` on, and where they end. */
  ghost function CompleteEnd(file: seq<byte>, start: nat): nat
    requires start <= |file|
  {
    SplitJoins(file[start..]);
    |file| - |Partial(file[start..])|
  }

  ghost predicate TextLines(isText: seq<byte> -> bool, lines: seq<seq<byte>>) {
    forall i :: 0 <= i < |lines| ==> isText(lines[i] + [NEWLINE])
  }

  /** Every line with its newline is text, and so is an unterminated rest. */
  ghost predicate IsReadable(isText: seq<byte> -> bool, s: seq<byte>) {
    TextLines(isText, Complete(s)) && (Partial(s) != [] ==> isText(Partial(s)))
  }

  /** Reads the complete lines behind `offset`, and leaves a partial line for the next call. A truncated file
      is read from its start. The call fails, without consuming anything, exactly if a line is not text, be it
      the partial one. */
  method ReadNewActivityLines(file: Option<seq<byte>>, offset: nat, isText: seq<byte> -> bool)
    returns (r: Option<seq<seq<byte>>>, offset': nat)
    ensures file.None? ==> r == Some([]) && offset' == offset
    ensures file.Some? ==>
              var start := if |file.value| < offset then 0 else offset;
              && (r.Some? <==> IsReadable(isText, file.value[start..]))
              && (r.None? ==> offset' == start)
              && (r.Some? ==> offset' == CompleteEnd(file.value, start) && r.value == StripAll(Complete(file.value[start..])))
  {
    if file.None? {
      return Some([]), offset;
    }
    offset' := if |file.value| < offset then 0 else offset;
    var text := file.value[offset'..];
    var lines: seq<seq<byte>> := [];
    var consumed := 0;
    while consumed < |text|
      invariant consumed <= |text| && Partial(text[..consumed]) == []
      invariant lines == StripAll(Complete(text[..consumed])) && TextLines(isText, Complete(text[..consumed]))
    {
      var payload, complete, next := NextSegment(text, consumed);
      SegmentReads(isText, text, consumed, payload, complete, next);
      if !isText(text[consumed..next]) {
        return None, offset';
      }
      if complete {
        var line := StripLineEnd(payload);
        StripOneMore(Complete(text[..consumed]), payload);
        lines := lines + [line];
        consumed := next;
      } else {
        break;
      }
    }
    TakeMore(text, consumed, |text|);
    offset' := offset' + consumed;
    r := Some(lines);
  }

  /** What one more segment says about the whole text. */
  lemma SegmentReads(isText: seq<byte> -> bool, text: seq<byte>, at: nat, payload: seq<byte>, complete: bool, next: nat)
    requires at < next <= |text| && OneLine(payload) && Partial(text[..at]) == []
    requires text[at..next] == payload + (if complete then [NEWLINE] else []) && (!complete ==> next == |text|)
    ensures complete ==> Partial(text[..next]) == [] && Complete(text[..next]) == Complete(text[..at]) + [payload]
    ensures complete && isText(text[at..next]) && TextLines(isText, Complete(text[..at])) ==> TextLines(isText, Complete(text[..next]))
    ensures complete && !isText(text[at..next]) ==> !IsReadable(isText, text)
    ensures !complete ==> Complete(text) == Complete(text[..at]) && Partial(text) == payload == text[at..next]
  {
    TakeMore(text, at, next);
    if complete {
      ReadComplete(text[..at], payload, text[..next]);
      assert text == text[..next] + text[next..];
      CompleteRestarts(text[..next], text[next..]);
      assert Complete(text)[|Complete(text[..at])|] == payload;
    } else {
      assert payload + [] == payload && text[..next] == text;
      ReadPartial(text[..at], payload, text);
    }
  }

  lemma ReadComplete(front: seq<byte>, payload: seq<byte>, text: seq<byte>)
    requires OneLine(payload) && Partial(front) == [] && text == front + (payload + [NEWLINE])
    ensures Partial(text) == [] && Complete(text) == Complete(front) + [payload]
  {
    AppendPayload(front, payload);
    assert [] + payload == payload;
    AppendNewline(front + payload);
    ConcatAssoc(front, payload, [NEWLINE]);
  }

  lemma ReadPartial(front: seq<byte>, payload: seq<byte>, text: seq<byte>)
    requires OneLine(payload) && Partial(front) == [] && text == front + payload
    ensures Complete(text) == Complete(front) && Partial(text) == payload
  {
    AppendPayload(front, payload);
    assert [] + payload == payload;
  }

  lemma TakeMore<T>(t: seq<T>, i: nat, j: nat)
    requires i <= j <= |t|
    ensures t[..j] == t[..i] + t[i..j]
    ensures j == |t| ==> t[..j] == t
  {
  }

  /** The painter has shown exactly the complete lines before the offset. */
  ghost predicate Painted(file: seq<byte>, offset: nat, lines: seq<seq<byte>>) {
    offset <= |file| && AtLineStart(file[..offset]) && lines == StripAll(Complete(file[..offset]))
  }

  lemma PaintedLater(before: seq<byte>, file: seq<byte>, offset: nat, lines: seq<seq<byte>>)
    requires before <= file && Painted(before, offset, lines)
    ensures Painted(file, offset, lines)
  {
    assert file[..offset] == before[..offset];
  }

  lemma PaintedPoll(file: seq<byte>, offset: nat, lines: seq<seq<byte>>, end: nat, more: seq<seq<byte>>)
    requires Painted(file, offset, lines) && end == CompleteEnd(file, offset) && more == StripAll(Complete(file[offset..]))
    ensures Painted(file, end, lines + more) && lines + more == StripAll(Complete(file))
  {
    PollStep(file, offset, end);
    StripConcat(Complete(file[..offset]), Complete(file[offset..]));
  }

  // ---- polling

  ghost predicate FindsText(isText: seq<byte> -> bool, poll: Option<seq<byte>>) {
    poll.Some? ==> IsReadable(isText, poll.value)
  }

  /** `done` polls find text, and the next one, if there is one, does not. */
  ghost predicate EndsAfter(isText: seq<byte> -> bool, polls: seq<Option<seq<byte>>>, done: nat) {
    && done <= |polls| && (forall i :: 0 <= i < done ==> FindsText(isText, polls[i]))
    && (done < |polls| ==> !FindsText(isText, polls[done]))
  }

  /** Behind text at a line start, a file is readable exactly when all of it is. */
  lemma ReadableFrom(isText: seq<byte> -> bool, file: seq<byte>, offset: nat)
    requires offset <= |file| && AtLineStart(file[..offset]) && TextLines(isText, Complete(file[..offset]))
    ensures IsReadable(isText, file) <==> IsReadable(isText, file[offset..])
  {
    var front, rest := file[..offset], file[offset..];
    assert front + rest == file;
    CompleteRestarts(front, rest);
    if IsReadable(isText, file) {
      forall i | 0 <= i < |Complete(rest)|
        ensures isText(Complete(rest)[i] + [NEWLINE])
      {
        assert Complete(file)[|Complete(front)| + i] == Complete(rest)[i];
      }
    }
  }

  /** The painter has shown all complete lines of a file, which is readable up to there. */
  ghost predicate AllShown(isText: seq<byte> -> bool, file: seq<byte>, offset: nat, lines: seq<seq<byte>>) {
    && Painted(file, offset, lines) && lines == StripAll(Complete(file))
    && TextLines(isText, Complete(file[..offset]))
  }

  lemma ShownPoll(isText: seq<byte> -> bool, before: seq<byte>, file: seq<byte>, offset: nat, lines: seq<seq<byte>>)
    requires before <= file && AllShown(isText, before, offset, lines)
    ensures offset <= |file| && (IsReadable(isText, file) <==> IsReadable(isText, file[offset..]))
    ensures IsReadable(isText, file) ==>
              var end, more := CompleteEnd(file, offset), StripAll(Complete(file[offset..]));
              AllShown(isText, file, end, lines + more)
  {
    PaintedLater(before, file, offset, lines);
    assert file[..offset] == before[..offset];
    ReadableFrom(isText, file, offset);
    if IsReadable(isText, file) {
      var end, more := CompleteEnd(file, offset), StripAll(Complete(file[offset..]));
      PaintedPoll(file, offset, lines, end, more);
      PollStep(file, offset, end);
    }
  }

  /** The painter after i polls, all of which found text. */
  ghost predicate Painting(isText: seq<byte> -> bool, polls: seq<Option<seq<byte>>>, i: nat, offset: nat, lines: seq<seq<byte>>) {
    && i <= |polls| && (forall j :: 0 <= j < i ==> FindsText(isText, polls[j]))
    && AllShown(isText, Latest(polls[..i]), offset, lines)
  }

  lemma PaintingNext(isText: seq<byte> -> bool, polls: seq<Option<seq<byte>>>, i: nat, offset: nat, lines: seq<seq<byte>>)
    requires i < |polls| && OnlyAppended(polls) && Painting(isText, polls, i, offset, lines)
    ensures polls[i].None? ==> Painting(isText, polls, i + 1, offset, lines + [])
    ensures polls[i].Some? ==>
              var file := polls[i].value;
              && offset <= |file| && (FindsText(isText, polls[i]) <==> IsReadable(isText, file[offset..]))
              && (FindsText(isText, polls[i]) ==>
                    Painting(isText, polls, i + 1, CompleteEnd(file, offset), lines + StripAll(Complete(file[offset..]))))
  {
    assert polls[..i + 1][..i] == polls[..i] && lines + [] == lines;
    if polls[i].Some? {
      LatestGrows(polls, i);
      ShownPoll(isText, Latest(polls[..i]), polls[i].value, offset, lines);
    }
  }

  /** Polls until the worker is finished, or a poll fails. The lines painted are the complete lines of the file as
      the last poll found it, each once and in order; a poll fails exactly if it finds something that is not text. */
  method PaintActivity(polls: seq<Option<seq<byte>>>, isText: seq<byte> -> bool)
    returns (ok: bool, lines: seq<seq<byte>>, offset: nat, done: nat)
    requires OnlyAppended(polls)
    ensures EndsAfter(isText, polls, done) && ok == (done == |polls|)
    ensures lines == StripAll(Complete(Latest(polls[..done])))
    ensures Painted(Latest(polls[..done]), offset, lines)
  {
    ok, lines, offset, done := true, [], 0, 0;
    for i := 0 to |polls|
      invariant ok && done == i && Painting(isText, polls, i, offset, lines)
    {
      PaintingNext(isText, polls, i, offset, lines);
      var r, offset' := ReadNewActivityLines(polls[i], offset, isText);
      offset := offset';
      if r.None? {
        ok := false;
        return;
      }
      lines := lines + r.value;
      done := i + 1;
    }
  }

  ghost predicate AtLineStart(s: seq<byte>) {
    s == [] || s[|s| - 1] == NEWLINE
  }

  lemma PollStep(file: seq<byte>, offset: nat, end: nat)
    requires offset <= |file| && AtLineStart(file[..offset]) && end == CompleteEnd(file, offset)
    ensures offset <= end <= |file| && AtLineStart(file[..end])
    ensures Complete(file[..end]) == Complete(file[..offset]) + Complete(file[offset..])
    ensures Complete(file) == Complete(file[..end])
  {
    var before, rest := file[..offset], file[offset..];
    var done := PollStream(before, rest);
    SplitAt(file, offset, end);
    assert file[..end] == before + done && file == before + rest;
  }

  lemma SplitAt<T>(t: seq<T>, i: nat, j: nat)
    requires i <= j <= |t|
    ensures t[..i] + t[i..] == t && t[..i] + t[i..][..j - i] == t[..j]
  {
  }

  lemma PollStream(before: seq<byte>, rest: seq<byte>) returns (done: seq<byte>)
    requires AtLineStart(before)
    ensures |Partial(rest)| <= |rest| && done == rest[..|rest| - |Partial(rest)|]
    ensures AtLineStart(before + done)
    ensures Complete(before + done) == Complete(before) + Complete(rest) == Complete(before + rest)
  {
    done := EndsComplete(rest);
    CompleteRestarts(before, rest);
    CompleteRestarts(before, done);
    assert done == [] ==> before + done == before;
  }

  lemma EndsComplete(rest: seq<byte>) returns (done: seq<byte>)
    ensures |Partial(rest)| <= |rest| && done == rest[..|rest| - |Partial(rest)|]
    ensures Complete(done) == Complete(rest) && Partial(done) == []
    ensures done != [] ==> done[|done| - 1] == NEWLINE
  {
    done := Terminated(Complete(rest));
    SplitJoins(rest);
    JoinSplits(Complete(rest), []);
    assert done + [] == done;
  }

  // ---- files cut inside a character

  ghost predicate IsUtf8Test(isText: seq<byte> -> bool) {
    forall s {:trigger isText(s)} :: isText(s) <==> IsUtf8(s)
  }

  lemma TerminatedLine(isText: seq<byte> -> bool, lines: seq<seq<byte>>)
    requires lines != []
    ensures var front, last := lines[..|lines| - 1], lines[|lines| - 1] + [NEWLINE];
            && Terminated(lines) == Terminated(front) + last
            && (TextLines(isText, lines) <==> TextLines(isText, front) && isText(last))
    ensures Terminated(lines) != [] && Terminated(lines)[|Terminated(lines)| - 1] == NEWLINE
  {
    ConcatAssoc(Terminated(lines[..|lines| - 1]), lines[|lines| - 1], [NEWLINE]);
  }

  lemma {:induction false} LinesAreText(isText: seq<byte> -> bool, lines: seq<seq<byte>>, rest: seq<byte>)
    requires IsUtf8Test(isText)
    ensures IsUtf8(Terminated(lines) + rest) <==> TextLines(isText, lines) && IsUtf8(rest)
  {
    if |lines| == 0 {
      assert Terminated(lines) + rest == rest;
    } else {
      var front, last := lines[..|lines| - 1], lines[|lines| - 1] + [NEWLINE];
      TerminatedLine(isText, lines);
      LinesAreText(isText, front, last);
      TextsBehindAscii(Terminated(lines), rest);
      assert isText(last) <==> IsUtf8(last);
    }
  }

  /** Reading line by line finds text exactly when the whole is text. */
  lemma ReadableIsText(isText: seq<byte> -> bool, s: seq<byte>)
    requires IsUtf8Test(isText)
    ensures IsReadable(isText, s) <==> IsUtf8(s)
  {
    SplitJoins(s);
    LinesAreText(isText, Complete(s), Partial(s));
    assert Utf8("") == [];
    assert isText(Partial(s)) <==> IsUtf8(Partial(s));
  }

  /** No poll finds the file cut inside a character. */
  ghost predicate NeverCut(polls: seq<Option<seq<byte>>>, text: seq<byte>) {
    forall i :: 0 <= i < |polls| && polls[i].Some? ==> IsCharBoundary(text, |polls[i].value|)
  }

  lemma FrontOfText(isText: seq<byte> -> bool, t: string, found: seq<byte>)
    requires IsUtf8Test(isText) && found <= Utf8(t)
    ensures IsReadable(isText, found) <==> IsCharBoundary(Utf8(t), |found|)
  {
    ReadableIsText(isText, found);
    FrontIsText(t, |found|);
    assert Utf8(t)[..|found|] == found;
  }

  lemma PollsAreFronts(polls: seq<Option<seq<byte>>>, i: nat)
    requires OnlyAppended(polls) && i < |polls| && polls[i].Some?
    ensures polls[i].value <= Latest(polls)
    decreases |polls|
  {
    var last := |polls| - 1;
    if i < last {
      if polls[last].None? {
        PollsAreFronts(polls[..last], i);
      }
    }
  }

  /** While a worker appends text, the painter gets to the end, having shown every complete line, if and only if no
      poll finds the file cut inside a character. If the text ends with a complete line, nothing else shows all. */
  lemma ShownUnlessCut(isText: seq<byte> -> bool, polls: seq<Option<seq<byte>>>, t: string, done: nat)
    requires IsUtf8Test(isText) && OnlyAppended(polls) && Latest(polls) == Utf8(t) && EndsAfter(isText, polls, done)
    ensures done == |polls| <==> NeverCut(polls, Utf8(t))
    ensures Partial(Utf8(t)) == [] ==>
              (StripAll(Complete(Latest(polls[..done]))) == StripAll(Complete(Utf8(t))) <==> NeverCut(polls, Utf8(t)))
  {
    forall i | 0 <= i < |polls| && polls[i].Some?
      ensures FindsText(isText, polls[i]) <==> IsCharBoundary(Utf8(t), |polls[i].value|)
    {
      PollsAreFronts(polls, i);
      FrontOfText(isText, t, polls[i].value);
    }
    if done == |polls| {
      assert polls[..done] == polls;
    } else {
      LatestGrows(polls, done);
      PollsAreFronts(polls, done);
      if Partial(Utf8(t)) == [] {
        CutLosesALine(t, Latest(polls[..done]), polls[done].value);
      }
    }
  }

  lemma CutLosesALine(t: string, before: seq<byte>, found: seq<byte>)
    requires before <= found <= Utf8(t) && !IsCharBoundary(Utf8(t), |found|) && Partial(Utf8(t)) == []
    ensures |Complete(before)| < |Complete(Utf8(t))|
  {
    var text := Utf8(t);
    var rest := text[|before|..];
    assert before + rest == text;
    LinesAre(before);
    LinesAre(text);
    EndsInText(t);
    MoreNewlines(before, rest);
  }

  lemma EndsInText(t: string)
    requires Partial(Utf8(t)) == [] && Utf8(t) != []
    ensures Utf8(t)[|Utf8(t)| - 1] == NEWLINE
  {
  }

  lemma MoreNewlines(a: seq<byte>, b: seq<byte>)
    requires |b| > 0 && b[|b| - 1] == NEWLINE
    ensures Newlines(a + b) > Newlines(a)
  {
    var front := b[..|b| - 1];
    NewlinesConcat(a, b);
    NewlinesConcat(front, [NEWLINE]);
    assert b == front + [NEWLINE];
  }

  lemma CutPollEnds(isText: seq<byte> -> bool, t: string, cut: seq<byte>, whole: seq<byte>)
    requires IsUtf8Test(isText) && cut <= whole == Utf8(t) && !IsCharBoundary(whole, |cut|)
    ensures var polls := [Some(cut), Some(whole)];
            && OnlyAppended(polls) && Latest(polls) == whole && EndsAfter(isText, polls, 0) && Latest(polls[..0]) == []
  {
    FrontOfText(isText, t, cut);
  }

  lemma TwoByteLine(t: string, line: seq<byte>)
    requires |t| == 2 && t[0] == '\U{E9}' && t[1] == '\n' && |line| == 2 && line[0] == 0xC3 && line[1] == 0xA9
    ensures Utf8(t) == line + [NEWLINE]
  {
    Utf8OneMore(t[..0], t[0]);
    Utf8OneMore(t[..1], t[1]);
    assert t[..1] == t[..0] + [t[0]] && t == t[..1] + [t[1]];
    assert Utf8(t[..1]) == line;
  }

  lemma OneLineFile(line: seq<byte>)
    requires OneLine(line)
    ensures Complete(line + [NEWLINE]) == [line]
  {
    AppendPayload([], line);
    AppendNewline(line);
    assert [] + line == line;
  }

  /** A worker writes one line of one character in two steps, and the painter polls in between: it ends, and the
      line is never shown. */
  lemma CutCharacterEndsPainter(isText: seq<byte> -> bool)
    requires IsUtf8Test(isText)
    ensures var polls := [Some([0xC3]), Some([0xC3, 0xA9, NEWLINE])];
            && OnlyAppended(polls) && Latest(polls) == Utf8("\U{E9}\n") && EndsAfter(isText, polls, 0)
            && Latest(polls[..0]) == [] && Complete(Latest(polls)) == [[0xC3, 0xA9]]
  {
    var line: seq<byte> := [0xC3, 0xA9];
    TwoByteLine("\U{E9}\n", line);
    OneLineFile(line);
    assert line + [NEWLINE] == [0xC3, 0xA9, NEWLINE];
    CutPollEnds(isText, "\U{E9}\n", [0xC3], [0xC3, 0xA9, NEWLINE]);
  }
}
