/** What the activity formatter displays, event by event: when pending text is shown, and when it waits. */
module ActivityDisplay {
  import opened ActivityFormatter
  import opened Outcomes

  // ---- pending text as segments

  ghost function SegmentOf(kind: Kind, text: string): seq<Segment> {
    if |text| == 0 then [] else [Segment(kind, text)]
  }

  /** The texts that are pending, in the order in which they are shown. */
  ghost function PendingSegments(b: Buffers): seq<Segment> {
    SegmentOf(Reasoning, b.reasoning.text) + SegmentOf(Text, b.text.text) + SegmentOf(ToolCall, b.toolCall.text)
  }

  /** A segment is displayed as one line of its kind, unless nothing of it is visible. */
  lemma SegmentShows(format: Format, kind: Kind, text: string)
    ensures Displayed(format, [Segment(kind, text)])
         == match format(kind, text)
            case None => []
            case Some(display) => [DeltaLine(kind, display)]
  {
    OneSegment(format, kind, text);
  }

  lemma SegmentChars(kind: Kind, text: string)
    ensures Chars(SegmentOf(kind, text)) == Tagged(kind, text)
  {
    OneSegment((_, _) => None, kind, text);
  }

  lemma PendingChars(b: Buffers)
    ensures Chars(PendingSegments(b)) == Pending(b)
  {
    CharsConcat(SegmentOf(Reasoning, b.reasoning.text), SegmentOf(Text, b.text.text));
    CharsConcat(SegmentOf(Reasoning, b.reasoning.text) + SegmentOf(Text, b.text.text), SegmentOf(ToolCall, b.toolCall.text));
    SegmentChars(Reasoning, b.reasoning.text);
    SegmentChars(Text, b.text.text);
    SegmentChars(ToolCall, b.toolCall.text);
  }

  function Without(b: Buffers, kind: Kind): Buffers {
    Set(b, kind, DeltaBuffer("", false))
  }

  ghost predicate SameTexts(a: Buffers, b: Buffers) {
    a.text.text == b.text.text && a.reasoning.text == b.reasoning.text && a.toolCall.text == b.toolCall.text
  }

  // ---- taking one buffer, or several

  lemma TakeShows(format: Format, b: Buffers, kind: Kind)
    ensures Take(format, b, kind).1 == Displayed(format, SegmentOf(kind, Get(b, kind).text))
    ensures SameTexts(Take(format, b, kind).0, Without(b, kind))
  {
    if |Get(b, kind).text| > 0 {
      OneSegment(format, kind, Get(b, kind).text);
    }
  }

  lemma ThreeDisplayed(format: Format, a: seq<Segment>, b: seq<Segment>, c: seq<Segment>)
    ensures Displayed(format, a + b + c) == Displayed(format, a) + Displayed(format, b) + Displayed(format, c)
  {
    DisplayedConcat(format, a, b);
    DisplayedConcat(format, a + b, c);
  }

  lemma FlushShows(format: Format, b: Buffers)
    ensures Flush(format, b).1 == Displayed(format, PendingSegments(b))
    ensures SameTexts(Flush(format, b).0, EMPTY)
  {
    var b1 := Take(format, b, Reasoning).0;
    var b2 := Take(format, b1, Text).0;
    TakeShows(format, b, Reasoning);
    TakeShows(format, b1, Text);
    TakeShows(format, b2, ToolCall);
    ThreeDisplayed(format, SegmentOf(Reasoning, b.reasoning.text), SegmentOf(Text, b.text.text), SegmentOf(ToolCall, b.toolCall.text));
  }

  /** Takes a buffer unless it is to be kept. */
  function TakeUnless(format: Format, b: Buffers, kind: Kind, keep: Kind): (Buffers, seq<Line>) {
    if keep == kind then (b, []) else Take(format, b, kind)
  }

  ghost function SegmentUnless(b: Buffers, kind: Kind, keep: Kind): seq<Segment> {
    if keep == kind then [] else SegmentOf(kind, Get(b, kind).text)
  }

  lemma TakeUnlessShows(format: Format, b: Buffers, kind: Kind, keep: Kind)
    ensures TakeUnless(format, b, kind, keep).1 == Displayed(format, SegmentUnless(b, kind, keep))
    ensures SameTexts(TakeUnless(format, b, kind, keep).0, if keep == kind then b else Without(b, kind))
  {
    TakeShows(format, b, kind);
  }

  lemma OtherSegments(b: Buffers, keep: Kind)
    ensures PendingSegments(Without(b, keep)) == SegmentUnless(b, Reasoning, keep) + SegmentUnless(b, Text, keep) + SegmentUnless(b, ToolCall, keep)
  {
  }

  lemma FlushExceptShows(format: Format, b: Buffers, keep: Kind)
    ensures FlushExcept(format, b, keep).1 == Displayed(format, PendingSegments(Without(b, keep)))
    ensures SameTexts(FlushExcept(format, b, keep).0, Set(EMPTY, keep, Get(b, keep)))
  {
    var (b1, l1) := TakeUnless(format, b, Reasoning, keep);
    var (b2, l2) := TakeUnless(format, b1, Text, keep);
    var (b3, l3) := TakeUnless(format, b2, ToolCall, keep);
    assert FlushExcept(format, b, keep) == (b3, l1 + l2 + l3);
    TakeUnlessShows(format, b, Reasoning, keep);
    TakeUnlessShows(format, b1, Text, keep);
    TakeUnlessShows(format, b2, ToolCall, keep);
    assert SegmentUnless(b1, Text, keep) == SegmentUnless(b, Text, keep);
    assert SegmentUnless(b2, ToolCall, keep) == SegmentUnless(b, ToolCall, keep);
    OtherSegments(b, keep);
    ThreeDisplayed(format, SegmentUnless(b, Reasoning, keep), SegmentUnless(b, Text, keep), SegmentUnless(b, ToolCall, keep));
  }

  lemma NothingPends(b: Buffers)
    requires SameTexts(b, EMPTY)
    ensures Pending(b) == []
  {
  }

  lemma OnePends(b: Buffers, kind: Kind, text: string)
    requires SameTexts(b, Set(EMPTY, kind, DeltaBuffer(text, false)))
    ensures Pending(b) == Tagged(kind, text)
  {
    assert OnlyHolds(b, kind) && Get(b, kind).text == text;
    PendingOf(b, kind);
  }

  // ---- what a step displays

  /** The warning that comes first, once, if the event's version is not supported yet. */
  function FutureWarning(s: State, version: Option<nat>): seq<Line> {
    if version.Some? && version.value > 1 && !s.warnedFutureVersion then [Notice(FUTURE_VERSION)] else []
  }

  /** The notice that comes last. */
  function LastNotice(s: State, event: Event): seq<Line> {
    match event
    case Announce(notice) => [Notice(notice)]
    case Unknown(eventType) => if s.warnedUnknownEvent then [] else [Notice(UNKNOWN_EVENT + eventType)]
    case _ => []
  }

  /** The state once the version has been looked at. */
  function Warned(s: State, version: Option<nat>): State {
    if |FutureWarning(s, version)| > 0 then s.(warnedFutureVersion := true) else s
  }

  lemma StepIs(format: Format, s: State, event: Event, version: Option<nat>)
    ensures Step(format, s, event, version).0 == React(format, Warned(s, version), event).0
    ensures Step(format, s, event, version).1 == FutureWarning(s, version) + React(format, Warned(s, version), event).1
    ensures Warned(s, version).buffers == s.buffers && Warned(s, version).warnedUnknownEvent == s.warnedUnknownEvent
  {
  }

  predicate Flushes(event: Event) {
    event.Announce? || event.Boundary? || event.Unknown? || event.DeltaStart?
  }

  lemma NothingBehind(lines: seq<Line>)
    ensures lines + [] == lines
  {
  }

  lemma FlushedFirst(format: Format, s: State, event: Event)
    requires Flushes(event)
    ensures React(format, s, event).1 == Flush(format, s.buffers).1 + LastNotice(s, event)
    ensures SameTexts(Flush(format, s.buffers).0, EMPTY) ==> SameTexts(React(format, s, event).0.buffers, EMPTY)
  {
    NothingBehind(Flush(format, s.buffers).1);
  }

  lemma Behind(warning: seq<Line>, shown: seq<Line>, last: seq<Line>)
    ensures warning + (shown + last) == warning + shown + last
    ensures |last| > 0 ==> |warning + shown + last| > 0 && (warning + shown + last)[|warning + shown + last| - 1] == last[|last| - 1]
  {
  }

  /** Every event but a delta, a delta's end and one that is no event shows everything that is pending, before its
      own notice if it has one. */
  lemma EventsFlush(format: Format, s: State, event: Event, version: Option<nat>)
    requires Flushes(event)
    ensures var (s', lines) := Step(format, s, event, version);
            && lines == FutureWarning(s, version) + Displayed(format, PendingSegments(s.buffers)) + LastNotice(s, event)
            && Pending(s'.buffers) == [] && Chars(PendingSegments(s.buffers)) == Pending(s.buffers)
            && (event.Announce? ==> |lines| > 0 && lines[|lines| - 1] == Notice(event.notice))
  {
    StepIs(format, s, event, version);
    FlushedFirst(format, Warned(s, version), event);
    FlushShows(format, s.buffers);
    PendingChars(s.buffers);
    NothingPends(Step(format, s, event, version).0.buffers);
    Behind(FutureWarning(s, version), Displayed(format, PendingSegments(s.buffers)), LastNotice(s, event));
  }

  /** A kind's text with a delta behind it. */
  function Longer(b: Buffers, kind: Kind, delta: Option<string>): string {
    Get(b, kind).text + if delta.Some? then delta.value else ""
  }

  /** The delta has brought it to 240 characters. */
  predicate Full(b: Buffers, kind: Kind, delta: Option<string>) {
    delta.Some? && delta.value != "" && |Longer(b, kind, delta)| >= 240
  }

  lemma AppendShows(format: Format, b: Buffers, kind: Kind, delta: string)
    requires |delta| > 0
    ensures var (b1, l1) := FlushExcept(format, b, kind);
            var b2 := Set(b1, kind, Get(b1, kind).(text := Get(b1, kind).text + delta));
            var whole := Longer(b, kind, Some(delta));
            && Get(b2, kind).text == whole && SameTexts(b2, Set(EMPTY, kind, DeltaBuffer(whole, false)))
            && Take(format, b2, kind).1 == Displayed(format, [Segment(kind, whole)])
            && SameTexts(Take(format, b2, kind).0, EMPTY)
  {
    var b1 := FlushExcept(format, b, kind).0;
    var b2 := Set(b1, kind, Get(b1, kind).(text := Get(b1, kind).text + delta));
    FlushExceptShows(format, b, kind);
    TakeShows(format, b2, kind);
  }

  lemma RecordShows(format: Format, b: Buffers, kind: Kind, delta: Option<string>)
    ensures var (b', lines) := Record(format, b, kind, delta);
            var whole, others := Longer(b, kind, delta), PendingSegments(Without(b, kind));
            && lines == (if Full(b, kind, delta) then Displayed(format, others + [Segment(kind, whole)]) else Displayed(format, others))
            && SameTexts(b', if Full(b, kind, delta) then EMPTY else Set(EMPTY, kind, DeltaBuffer(whole, false)))
  {
    FlushExceptShows(format, b, kind);
    if delta.None? || delta.value == "" {
      assert Longer(b, kind, delta) == Get(b, kind).text;
    } else {
      AppendShows(format, b, kind, delta.value);
      DisplayedConcat(format, PendingSegments(Without(b, kind)), [Segment(kind, Longer(b, kind, delta))]);
    }
  }

  /** A delta waits until its kind has collected 240 characters: it shows what other kinds have pending, then,
      if there are that many, all of its kind. In particular one that goes on with the kind that is pending, and
      leaves it below 240 characters, shows nothing. */
  lemma DeltasWait(format: Format, s: State, kind: Kind, delta: Option<string>, version: Option<nat>)
    ensures var (s', lines) := Step(format, s, Delta(kind, delta), version);
            var (b, whole) := (s.buffers, Longer(s.buffers, kind, delta));
            var others := PendingSegments(Without(b, kind));
            && lines == FutureWarning(s, version)
                        + (if Full(b, kind, delta) then Displayed(format, others + [Segment(kind, whole)]) else Displayed(format, others))
            && Pending(s'.buffers) == (if Full(b, kind, delta) then [] else Tagged(kind, whole))
            && (OnlyHolds(b, kind) && |whole| < 240 ==> lines == FutureWarning(s, version))
  {
    StepIs(format, s, Delta(kind, delta), version);
    RecordShows(format, s.buffers, kind, delta);
    var s' := Step(format, s, Delta(kind, delta), version).0;
    if Full(s.buffers, kind, delta) {
      NothingPends(s'.buffers);
    } else {
      OnePends(s'.buffers, kind, Longer(s.buffers, kind, delta));
    }
    if OnlyHolds(s.buffers, kind) {
      NoOthers(s.buffers, kind);
      assert FutureWarning(s, version) + [] == FutureWarning(s, version);
    }
  }

  lemma NoOthers(b: Buffers, kind: Kind)
    requires OnlyHolds(b, kind)
    ensures PendingSegments(Without(b, kind)) == []
  {
    assert forall k :: k != kind ==> Get(b, k).text == "";
    assert Get(b, Text).text == b.text.text && Get(b, Reasoning).text == b.reasoning.text && Get(b, ToolCall).text == b.toolCall.text;
  }

  lemma FinishShowsAll(format: Format, b: Buffers, kind: Kind, content: Option<string>)
    ensures var (b', lines) := Finish(format, b, kind, content);
            && lines == Displayed(format, SegmentOf(kind, Get(b, kind).text)) + SilentContent(format, b, kind, content)
            && SameTexts(b', Without(b, kind))
  {
    TakeShows(format, b, kind);
  }

  /** The content of a block no text of which ever came. */
  function SilentContent(format: Format, b: Buffers, kind: Kind, content: Option<string>): seq<Line> {
    if Get(b, kind).text != "" || Get(b, kind).emitted || content.None? || content.value == "" then []
    else
      match format(kind, content.value)
      case None => []
      case Some(display) => [ContentLine(kind, display)]
  }

  /** The end of a block shows the pending text of its kind, or, if no text of it ever came, its content. */
  lemma EndShows(format: Format, s: State, kind: Kind, content: Option<string>, version: Option<nat>)
    ensures var (s', lines) := Step(format, s, DeltaEnd(kind, content), version);
            && lines == FutureWarning(s, version) + Displayed(format, SegmentOf(kind, Get(s.buffers, kind).text))
                        + SilentContent(format, s.buffers, kind, content)
            && SameTexts(s'.buffers, Without(s.buffers, kind))
  {
    StepIs(format, s, DeltaEnd(kind, content), version);
    FinishShowsAll(format, s.buffers, kind, content);
    Behind(FutureWarning(s, version), Displayed(format, SegmentOf(kind, Get(s.buffers, kind).text)),
           SilentContent(format, s.buffers, kind, content));
  }

  /** What is no event changes nothing that is pending. */
  lemma OthersShowNothing(format: Format, s: State, event: Event, version: Option<nat>)
    requires event.Garbled? || event.Untyped?
    ensures var (s', lines) := Step(format, s, event, version);
            && s'.buffers == s.buffers
            && lines == FutureWarning(s, version) + if event.Garbled? then [Notice(NOT_JSON)] else []
  {
    StepIs(format, s, event, version);
  }

  /** Each of the two warnings is given once. */
  lemma WarningsOnce(format: Format, s: State, event: Event, version: Option<nat>)
    ensures var s' := Step(format, s, event, version).0;
            && (s'.warnedFutureVersion <==> s.warnedFutureVersion || |FutureWarning(s, version)| > 0)
            && (s'.warnedUnknownEvent <==> s.warnedUnknownEvent || event.Unknown?)
  {
  }
}
