/** The activity formatter: coalesces streamed deltas into display lines without losing or reordering text. */
module ActivityFormatter {
  import opened Outcomes

  const FLUSH_CHARS: nat := 240
  const SUPPORTED_VERSION: nat := 1

  datatype Kind = Text | Reasoning | ToolCall

  datatype DeltaBuffer = DeltaBuffer(text: string, emitted: bool)

  /** A wire event as far as the formatter looks into it. */
  datatype Event =
    | Announce(notice: string)            // session, agent, tool and similar events: flush, then one line
    | Boundary                            // turn and message starts and ends: flush
    | Garbled                             // not JSON: one line, nothing else
    | Untyped                             // no event type, or an update without an assistant event
    | Unknown(eventType: string)          // flush, and a warning the first time
    | DeltaStart(kind: Kind)
    | Delta(kind: Kind, delta: Option<string>)
    | DeltaEnd(kind: Kind, content: Option<string>)

  datatype Line = DeltaLine(kind: Kind, display: string) | ContentLine(kind: Kind, display: string) | Notice(text: string)

  datatype Segment = Segment(kind: Kind, text: string)

  ghost function Tagged(kind: Kind, text: string): seq<(Kind, char)> {
    seq(|text|, i requires 0 <= i < |text| => (kind, text[i]))
  }

  /** The characters of a list of segments, each with its kind. */
  ghost function Chars(segments: seq<Segment>): seq<(Kind, char)> {
    if segments == [] then []
    else Chars(segments[..|segments| - 1]) + Tagged(segments[|segments| - 1].kind, segments[|segments| - 1].text)
  }

  lemma CharsOneMore(segments: seq<Segment>, s: Segment)
    ensures Chars(segments + [s]) == Chars(segments) + Tagged(s.kind, s.text)
  {
    assert (segments + [s])[..|segments|] == segments;
  }

  lemma TaggedConcat(kind: Kind, a: string, b: string)
    ensures Tagged(kind, a + b) == Tagged(kind, a) + Tagged(kind, b)
    ensures Tagged(kind, "") == []
  {
  }

  /** The display lines of the segments, those without visible text left out. */
  ghost function Displayed(format: (Kind, string) -> Option<string>, segments: seq<Segment>): seq<Line> {
    if segments == [] then []
    else
      var s := segments[|segments| - 1];
      Displayed(format, segments[..|segments| - 1]) + DeltaLines(format, s.kind, s.text)
  }

  function DeltaLines(format: (Kind, string) -> Option<string>, kind: Kind, text: string): seq<Line> {
    match format(kind, text)
    case None => []
    case Some(display) => [DeltaLine(kind, display)]
  }

  /** The delta lines among all lines. */
  ghost function OnlyDeltas(lines: seq<Line>): seq<Line> {
    if lines == [] then []
    else OnlyDeltas(lines[..|lines| - 1]) + if lines[|lines| - 1].DeltaLine? then [lines[|lines| - 1]] else []
  }

  lemma {:induction false} OnlyDeltasConcat(a: seq<Line>, b: seq<Line>)
    ensures OnlyDeltas(a + b) == OnlyDeltas(a) + OnlyDeltas(b)
  {
    if b == [] {
      assert a + b == a;
    } else {
      assert (a + b)[..|a + b| - 1] == a + b[..|b| - 1];
      OnlyDeltasConcat(a, b[..|b| - 1]);
    }
  }

  ghost predicate NoDeltas(lines: seq<Line>) {
    forall i :: 0 <= i < |lines| ==> !lines[i].DeltaLine?
  }

  lemma {:induction false} NoDeltasNone(lines: seq<Line>)
    requires NoDeltas(lines)
    ensures OnlyDeltas(lines) == []
  {
    if lines != [] {
      NoDeltasNone(lines[..|lines| - 1]);
    }
  }

  // ---- the three buffers

  datatype Buffers = Buffers(text: DeltaBuffer, reasoning: DeltaBuffer, toolCall: DeltaBuffer)

  function Get(b: Buffers, kind: Kind): DeltaBuffer {
    match kind
    case Text => b.text
    case Reasoning => b.reasoning
    case ToolCall => b.toolCall
  }

  function Set(b: Buffers, kind: Kind, d: DeltaBuffer): Buffers {
    match kind
    case Text => b.(text := d)
    case Reasoning => b.(reasoning := d)
    case ToolCall => b.(toolCall := d)
  }

  const EMPTY := Buffers(DeltaBuffer("", false), DeltaBuffer("", false), DeltaBuffer("", false))

  ghost function Pending(b: Buffers): seq<(Kind, char)> {
    Tagged(Reasoning, b.reasoning.text) + Tagged(Text, b.text.text) + Tagged(ToolCall, b.toolCall.text)
  }

  /** Only the buffer of this kind may hold text. */
  ghost predicate OnlyHolds(b: Buffers, kind: Kind) {
    forall k :: k != kind ==> Get(b, k).text == ""
  }

  lemma PendingOf(b: Buffers, kind: Kind)
    requires OnlyHolds(b, kind)
    ensures Pending(b) == Tagged(kind, Get(b, kind).text)
  {
    assert forall k :: k != kind ==> Get(b, k).text == "";
    match kind
    case Text => assert Get(b, Reasoning).text == "" && Get(b, ToolCall).text == "";
    case Reasoning => assert Get(b, Text).text == "" && Get(b, ToolCall).text == "";
    case ToolCall => assert Get(b, Reasoning).text == "" && Get(b, Text).text == "";
  }

  lemma OnlyHoldsSet(b: Buffers, kind: Kind, d: DeltaBuffer)
    ensures Get(Set(b, kind, d), kind) == d
    ensures forall k :: k != kind ==> Get(Set(b, kind, d), k) == Get(b, k)
  {
  }

  // ---- what each operation does to the buffers

  type Format = (Kind, string) -> Option<string>

  function Take(format: Format, b: Buffers, kind: Kind): (Buffers, seq<Line>) {
    var text := Get(b, kind).text;
    if text == "" then (b, []) else (Set(b, kind, DeltaBuffer("", true)), DeltaLines(format, kind, text))
  }

  function Flush(format: Format, b: Buffers): (Buffers, seq<Line>) {
    var (b1, l1) := Take(format, b, Reasoning);
    var (b2, l2) := Take(format, b1, Text);
    var (b3, l3) := Take(format, b2, ToolCall);
    (b3, l1 + l2 + l3)
  }

  function FlushExcept(format: Format, b: Buffers, keep: Kind): (Buffers, seq<Line>) {
    var (b1, l1) := if keep == Reasoning then (b, []) else Take(format, b, Reasoning);
    var (b2, l2) := if keep == Text then (b1, []) else Take(format, b1, Text);
    var (b3, l3) := if keep == ToolCall then (b2, []) else Take(format, b2, ToolCall);
    (b3, l1 + l2 + l3)
  }

  function Reset(b: Buffers, kind: Kind): Buffers {
    Set(b, kind, DeltaBuffer("", false))
  }

  function Begin(format: Format, b: Buffers, kind: Kind): (Buffers, seq<Line>) {
    var (b1, lines) := Flush(format, b);
    (Reset(b1, kind), lines)
  }

  function Record(format: Format, b: Buffers, kind: Kind, delta: Option<string>): (Buffers, seq<Line>) {
    var (b1, l1) := FlushExcept(format, b, kind);
    if delta.None? || delta.value == "" then (b1, l1)
    else
      var b2 := Set(b1, kind, Get(b1, kind).(text := Get(b1, kind).text + delta.value));
      if |Get(b2, kind).text| >= FLUSH_CHARS then
        var (b3, l3) := Take(format, b2, kind);
        (b3, l1 + l3)
      else (b2, l1)
  }

  function ContentLines(format: Format, kind: Kind, content: Option<string>): seq<Line> {
    if content.Some? && content.value != "" && format(kind, content.value).Some?
    then [ContentLine(kind, format(kind, content.value).value)]
    else []
  }

  function Finish(format: Format, b: Buffers, kind: Kind, content: Option<string>): (Buffers, seq<Line>) {
    var silent := Get(b, kind).text == "" && !Get(b, kind).emitted;
    var (b1, lines) := Take(format, b, kind);
    (Reset(b1, kind), lines + if silent then ContentLines(format, kind, content) else [])
  }

  datatype State = State(buffers: Buffers, warnedUnknownEvent: bool, warnedFutureVersion: bool)

  const START := State(EMPTY, false, false)

  function React(format: Format, s: State, event: Event): (State, seq<Line>) {
    match event
    case Announce(notice) =>
      var (b, lines) := Flush(format, s.buffers);
      (s.(buffers := b), lines + [Notice(notice)])
    case Boundary =>
      var (b, lines) := Flush(format, s.buffers);
      (s.(buffers := b), lines)
    case Garbled => (s, [Notice(NOT_JSON)])
    case Untyped => (s, [])
    case Unknown(eventType) =>
      var (b, lines) := Flush(format, s.buffers);
      (s.(buffers := b, warnedUnknownEvent := true),
       lines + if s.warnedUnknownEvent then [] else [Notice(UNKNOWN_EVENT + eventType)])
    case DeltaStart(kind) =>
      var (b, lines) := Begin(format, s.buffers, kind);
      (s.(buffers := b), lines)
    case Delta(kind, delta) =>
      var (b, lines) := Record(format, s.buffers, kind, delta);
      (s.(buffers := b), lines)
    case DeltaEnd(kind, content) =>
      var (b, lines) := Finish(format, s.buffers, kind, content);
      (s.(buffers := b), lines)
  }

  const UNKNOWN_EVENT := "[pi] unknown event ignored: "
  const NOT_JSON := "[pi] ignored non-json stdout line"
  const FUTURE_VERSION := "[pi] future event contract tolerated by display parser"

  function Step(format: Format, s: State, event: Event, version: Option<nat>): (State, seq<Line>) {
    var warn := version.Some? && version.value > SUPPORTED_VERSION && !s.warnedFutureVersion;
    var (s', lines) := React(format, if warn then s.(warnedFutureVersion := true) else s, event);
    (s', (if warn then [Notice(FUTURE_VERSION)] else []) + lines)
  }

  // ---- the formatter object

  class PiActivityFormatter {
    const format: Format
    var buffers: Buffers
    var warnedUnknownEvent: bool
    var warnedFutureVersion: bool

    function Value(): State
      reads this
    {
      State(buffers, warnedUnknownEvent, warnedFutureVersion)
    }

    constructor (format: Format)
      ensures this.format == format && Value() == START
    {
      this.format := format;
      buffers, warnedUnknownEvent, warnedFutureVersion := EMPTY, false, false;
    }

    method TakeDeltaLines(kind: Kind) returns (lines: seq<Line>)
      modifies this`buffers
      ensures (buffers, lines) == Take(format, old(buffers), kind)
    {
      var text := Get(buffers, kind).text;
      buffers := Set(buffers, kind, Get(buffers, kind).(text := ""));
      if text == "" {
        return [];
      }
      buffers := Set(buffers, kind, Get(buffers, kind).(emitted := true));
      lines := DeltaLines(format, kind, text);
    }

    method FlushCompacted() returns (lines: seq<Line>)
      modifies this`buffers
      ensures (buffers, lines) == Flush(format, old(buffers))
    {
      lines := TakeDeltaLines(Reasoning);
      var more := TakeDeltaLines(Text);
      lines := lines + more;
      more := TakeDeltaLines(ToolCall);
      lines := lines + more;
    }

    method FlushAllExcept(keep: Kind) returns (lines: seq<Line>)
      modifies this`buffers
      ensures (buffers, lines) == FlushExcept(format, old(buffers), keep)
    {
      var l1, l2, l3 := [], [], [];
      if keep != Reasoning {
        l1 := TakeDeltaLines(Reasoning);
      }
      if keep != Text {
        l2 := TakeDeltaLines(Text);
      }
      if keep != ToolCall {
        l3 := TakeDeltaLines(ToolCall);
      }
      lines := l1 + l2 + l3;
    }

    method BeginDelta(kind: Kind) returns (lines: seq<Line>)
      modifies this`buffers
      ensures (buffers, lines) == Begin(format, old(buffers), kind)
    {
      lines := FlushCompacted();
      buffers := Reset(buffers, kind);
    }

    method RecordDelta(delta: Option<string>, kind: Kind) returns (lines: seq<Line>)
      modifies this`buffers
      ensures (buffers, lines) == Record(format, old(buffers), kind, delta)
    {
      lines := FlushAllExcept(kind);
      if delta.None? || delta.value == "" {
        return;
      }
      var buffer := Get(buffers, kind);
      buffers := Set(buffers, kind, buffer.(text := buffer.text + delta.value));
      if |Get(buffers, kind).text| >= FLUSH_CHARS {
        var more := TakeDeltaLines(kind);
        lines := lines + more;
      }
    }

    method FinishDelta(kind: Kind, content: Option<string>) returns (lines: seq<Line>)
      modifies this`buffers
      ensures (buffers, lines) == Finish(format, old(buffers), kind, content)
    {
      var hadBuffer := Get(buffers, kind).text != "";
      var hadEmitted := Get(buffers, kind).emitted;
      lines := TakeDeltaLines(kind);
      var extra := [];
      if !hadBuffer && !hadEmitted && content.Some? && content.value != "" {
        var shown := format(kind, content.value);
        if shown.Some? {
          extra := [ContentLine(kind, shown.value)];
        }
      }
      lines := lines + extra;
      buffers := Reset(buffers, kind);
    }

    method RenderEvent(event: Event, version: Option<nat>) returns (lines: seq<Line>)
      modifies this
      ensures (Value(), lines) == Step(format, old(Value()), event, version)
    {
      lines := [];
      if version.Some? && version.value > SUPPORTED_VERSION && !warnedFutureVersion {
        warnedFutureVersion := true;
        lines := [Notice(FUTURE_VERSION)];
      }
      var more: seq<Line> := [];
      match event {
        case Announce(notice) =>
          more := FlushCompacted();
          more := more + [Notice(notice)];
        case Boundary =>
          more := FlushCompacted();
        case Garbled =>
          more := [Notice(NOT_JSON)];
        case Untyped =>
        case Unknown(eventType) =>
          more := FlushCompacted();
          var extra := [];
          if !warnedUnknownEvent {
            warnedUnknownEvent := true;
            extra := [Notice(UNKNOWN_EVENT + eventType)];
          }
          more := more + extra;
        case DeltaStart(kind) =>
          more := BeginDelta(kind);
        case Delta(kind, delta) =>
          more := RecordDelta(delta, kind);
        case DeltaEnd(kind, content) =>
          more := FinishDelta(kind, content);
      }
      lines := lines + more;
    }
  }

  // ---- conservation

  /** What was pending, with the added deltas behind it, is what was taken with what is pending now behind it;
      and the delta lines show exactly what was taken. */
  ghost predicate Conserves(format: Format, b: Buffers, added: seq<Segment>, taken: seq<Segment>, lines: seq<Line>, b': Buffers) {
    && Pending(b) + Chars(added) == Chars(taken) + Pending(b')
    && OnlyDeltas(lines) == Displayed(format, taken)
  }

  lemma {:induction false} CharsConcat(a: seq<Segment>, b: seq<Segment>)
    ensures Chars(a + b) == Chars(a) + Chars(b)
  {
    if b == [] {
      assert a + b == a;
    } else {
      assert (a + b)[..|a + b| - 1] == a + b[..|b| - 1];
      CharsConcat(a, b[..|b| - 1]);
    }
  }

  lemma {:induction false} DisplayedConcat(format: Format, a: seq<Segment>, b: seq<Segment>)
    ensures Displayed(format, a + b) == Displayed(format, a) + Displayed(format, b)
  {
    if b == [] {
      assert a + b == a;
    } else {
      assert (a + b)[..|a + b| - 1] == a + b[..|b| - 1];
      DisplayedConcat(format, a, b[..|b| - 1]);
    }
  }

  lemma ConservesThen(format: Format, b0: Buffers, a1: seq<Segment>, t1: seq<Segment>, l1: seq<Line>, b1: Buffers,
                      a2: seq<Segment>, t2: seq<Segment>, l2: seq<Line>, b2: Buffers)
    requires Conserves(format, b0, a1, t1, l1, b1) && Conserves(format, b1, a2, t2, l2, b2)
    ensures Conserves(format, b0, a1 + a2, t1 + t2, l1 + l2, b2)
  {
    CharsConcat(a1, a2);
    CharsConcat(t1, t2);
    DisplayedConcat(format, t1, t2);
    OnlyDeltasConcat(l1, l2);
    Rearrange(Pending(b0), Chars(a1), Chars(a2), Chars(t1), Pending(b1), Chars(t2), Pending(b2));
  }

  lemma Rearrange<T>(p0: seq<T>, a1: seq<T>, a2: seq<T>, t1: seq<T>, p1: seq<T>, t2: seq<T>, p2: seq<T>)
    requires p0 + a1 == t1 + p1 && p1 + a2 == t2 + p2
    ensures p0 + (a1 + a2) == t1 + t2 + p2
  {
    assert p0 + (a1 + a2) == (p0 + a1) + a2;
    assert (t1 + p1) + a2 == t1 + (p1 + a2);
    assert t1 + (t2 + p2) == t1 + t2 + p2;
  }

  lemma NoticesConserve(format: Format, b: Buffers, lines: seq<Line>)
    requires NoDeltas(lines)
    ensures Conserves(format, b, [], [], lines, b)
  {
    NoDeltasNone(lines);
    assert Pending(b) + [] == [] + Pending(b);
  }

  /** At most one buffer holds text, and none holds 240 characters. */
  ghost predicate Bounded(b: Buffers) {
    (exists kind :: OnlyHolds(b, kind)) && forall kind :: |Get(b, kind).text| < FLUSH_CHARS
  }

  ghost predicate OneHolds(b: Buffers) {
    exists kind :: OnlyHolds(b, kind)
  }

  lemma TakeConserves(format: Format, b: Buffers, kind: Kind) returns (taken: seq<Segment>)
    requires OneHolds(b)
    ensures Conserves(format, b, [], taken, Take(format, b, kind).1, Take(format, b, kind).0)
    ensures OneHolds(Take(format, b, kind).0)
    ensures Get(Take(format, b, kind).0, kind).text == ""
    ensures forall k :: k != kind ==> Get(Take(format, b, kind).0, k) == Get(b, k)
  {
    var text := Get(b, kind).text;
    OnlyHoldsSet(b, kind, DeltaBuffer("", true));
    if text == "" {
      taken := [];
      NoticesConserve(format, b, []);
    } else {
      var b', lines := Take(format, b, kind).0, Take(format, b, kind).1;
      taken := [Segment(kind, text)];
      var k :| OnlyHolds(b, k);
      assert k == kind;
      assert OnlyHolds(b', kind);
      PendingOf(b, kind);
      PendingOf(b', kind);
      OneSegment(format, kind, text);
    }
  }

  lemma OneSegment(format: Format, kind: Kind, text: string)
    ensures Chars([Segment(kind, text)]) == Tagged(kind, text)
    ensures Displayed(format, [Segment(kind, text)]) == DeltaLines(format, kind, text)
    ensures OnlyDeltas(DeltaLines(format, kind, text)) == DeltaLines(format, kind, text)
  {
    var nothing: seq<Segment> := [];
    assert [Segment(kind, text)] == nothing + [Segment(kind, text)];
    CharsOneMore(nothing, Segment(kind, text));
    assert [Segment(kind, text)][..0] == nothing;
    var lines := DeltaLines(format, kind, text);
    if lines != [] {
      assert lines[..0] == [];
    }
  }

  lemma FlushConserves(format: Format, b: Buffers) returns (taken: seq<Segment>)
    requires OneHolds(b)
    ensures Conserves(format, b, [], taken, Flush(format, b).1, Flush(format, b).0)
    ensures forall kind :: Get(Flush(format, b).0, kind).text == ""
  {
    var (b1, l1) := Take(format, b, Reasoning);
    var (b2, l2) := Take(format, b1, Text);
    var (b3, l3) := Take(format, b2, ToolCall);
    var t1 := TakeConserves(format, b, Reasoning);
    var t2 := TakeConserves(format, b1, Text);
    var t3 := TakeConserves(format, b2, ToolCall);
    ConservesThen(format, b, [], t1, l1, b1, [], t2, l2, b2);
    ConservesThen(format, b, [] + [], t1 + t2, l1 + l2, b2, [], t3, l3, b3);
    taken := t1 + t2 + t3;
  }

  lemma FlushExceptConserves(format: Format, b: Buffers, keep: Kind) returns (taken: seq<Segment>)
    requires OneHolds(b)
    ensures Conserves(format, b, [], taken, FlushExcept(format, b, keep).1, FlushExcept(format, b, keep).0)
    ensures OnlyHolds(FlushExcept(format, b, keep).0, keep) && Get(FlushExcept(format, b, keep).0, keep) == Get(b, keep)
  {
    var (b1, l1) := if keep == Reasoning then (b, []) else Take(format, b, Reasoning);
    var (b2, l2) := if keep == Text then (b1, []) else Take(format, b1, Text);
    var (b3, l3) := if keep == ToolCall then (b2, []) else Take(format, b2, ToolCall);
    var t1 := TakeUnless(format, b, Reasoning, keep);
    var t2 := TakeUnless(format, b1, Text, keep);
    var t3 := TakeUnless(format, b2, ToolCall, keep);
    ConservesThen(format, b, [], t1, l1, b1, [], t2, l2, b2);
    ConservesThen(format, b, [] + [], t1 + t2, l1 + l2, b2, [], t3, l3, b3);
    taken := t1 + t2 + t3;
  }

  lemma TakeUnless(format: Format, b: Buffers, kind: Kind, keep: Kind) returns (taken: seq<Segment>)
    requires OneHolds(b)
    ensures var (b', lines) := if keep == kind then (b, []) else Take(format, b, kind);
            && Conserves(format, b, [], taken, lines, b') && OneHolds(b')
            && (keep != kind ==> Get(b', kind).text == "")
            && forall k :: k != kind || k == keep ==> Get(b', k) == Get(b, k)
  {
    if keep == kind {
      taken := [];
      NoticesConserve(format, b, []);
    } else {
      taken := TakeConserves(format, b, kind);
    }
  }

  /** Replacing an empty buffer by an empty one changes nothing that is pending. */
  lemma ResetConserves(format: Format, b: Buffers, kind: Kind)
    requires OneHolds(b) && Get(b, kind).text == ""
    ensures Conserves(format, b, [], [], [], Reset(b, kind)) && OneHolds(Reset(b, kind))
    ensures forall k :: Get(Reset(b, kind), k).text == Get(b, k).text
  {
    OnlyHoldsSet(b, kind, DeltaBuffer("", false));
    var k :| OnlyHolds(b, k);
    assert OnlyHolds(Reset(b, kind), k);
    PendingOf(b, k);
    PendingOf(Reset(b, kind), k);
    NoticesConserve(format, b, []);
  }

  lemma BeginConserves(format: Format, b: Buffers, kind: Kind) returns (taken: seq<Segment>)
    requires Bounded(b)
    ensures Conserves(format, b, [], taken, Begin(format, b, kind).1, Begin(format, b, kind).0)
    ensures Bounded(Begin(format, b, kind).0)
  {
    taken := FlushConserves(format, b);
    var (b1, lines) := Flush(format, b);
    assert OnlyHolds(b1, kind);
    ResetConserves(format, b1, kind);
    ConservesThen(format, b, [], taken, lines, b1, [], [], [], Reset(b1, kind));
    assert taken + [] == taken && lines + [] == lines;
  }

  lemma AppendConserves(format: Format, b: Buffers, kind: Kind, delta: string)
    requires OnlyHolds(b, kind)
    ensures var b' := Set(b, kind, Get(b, kind).(text := Get(b, kind).text + delta));
            OnlyHolds(b', kind) && Conserves(format, b, [Segment(kind, delta)], [], [], b')
  {
    var b' := Set(b, kind, Get(b, kind).(text := Get(b, kind).text + delta));
    OnlyHoldsSet(b, kind, Get(b, kind).(text := Get(b, kind).text + delta));
    PendingOf(b, kind);
    PendingOf(b', kind);
    TaggedConcat(kind, Get(b, kind).text, delta);
    OneSegment(format, kind, delta);
    NoticesConserve(format, b, []);
  }

  ghost function Recorded(event: Event): seq<Segment> {
    if event.Delta? && event.delta.Some? && event.delta.value != "" then [Segment(event.kind, event.delta.value)] else []
  }

  /** Without a delta in between, only what was taken and shown adds up. */
  lemma ConservesThenTake(format: Format, b0: Buffers, added: seq<Segment>, t1: seq<Segment>, l1: seq<Line>, b1: Buffers,
                          t2: seq<Segment>, l2: seq<Line>, b2: Buffers)
    requires Conserves(format, b0, added, t1, l1, b1) && Conserves(format, b1, [], t2, l2, b2)
    ensures Conserves(format, b0, added, t1 + t2, l1 + l2, b2)
  {
    ConservesThen(format, b0, added, t1, l1, b1, [], t2, l2, b2);
    assert added + [] == added;
  }

  lemma FlushThenAppend(format: Format, b: Buffers, kind: Kind, delta: string) returns (taken: seq<Segment>)
    requires OneHolds(b)
    ensures var (b1, l1) := FlushExcept(format, b, kind);
            var b2 := Set(b1, kind, Get(b1, kind).(text := Get(b1, kind).text + delta));
            OnlyHolds(b2, kind) && Conserves(format, b, [Segment(kind, delta)], taken, l1, b2)
  {
    var (b1, l1) := FlushExcept(format, b, kind);
    taken := FlushExceptConserves(format, b, kind);
    AppendConserves(format, b1, kind, delta);
    var b2 := Set(b1, kind, Get(b1, kind).(text := Get(b1, kind).text + delta));
    ConservesThen(format, b, [], taken, l1, b1, [Segment(kind, delta)], [], [], b2);
    assert taken + [] == taken && l1 + [] == l1 && [] + [Segment(kind, delta)] == [Segment(kind, delta)];
  }

  lemma RecordConserves(format: Format, b: Buffers, kind: Kind, delta: Option<string>) returns (taken: seq<Segment>)
    requires Bounded(b)
    ensures Conserves(format, b, Recorded(Delta(kind, delta)), taken, Record(format, b, kind, delta).1, Record(format, b, kind, delta).0)
    ensures Bounded(Record(format, b, kind, delta).0)
  {
    if delta.None? || delta.value == "" {
      taken := FlushExceptConserves(format, b, kind);
    } else {
      var (b1, l1) := FlushExcept(format, b, kind);
      var b2 := Set(b1, kind, Get(b1, kind).(text := Get(b1, kind).text + delta.value));
      taken := FlushThenAppend(format, b, kind, delta.value);
      if |Get(b2, kind).text| >= FLUSH_CHARS {
        var more := TakeConserves(format, b2, kind);
        var (b3, l3) := Take(format, b2, kind);
        ConservesThenTake(format, b, [Segment(kind, delta.value)], taken, l1, b2, more, l3, b3);
        taken := taken + more;
      }
    }
  }

  lemma FinishConserves(format: Format, b: Buffers, kind: Kind, content: Option<string>) returns (taken: seq<Segment>)
    requires Bounded(b)
    ensures Conserves(format, b, [], taken, Finish(format, b, kind, content).1, Finish(format, b, kind, content).0)
    ensures Bounded(Finish(format, b, kind, content).0)
  {
    taken := TakeConserves(format, b, kind);
    var (b1, lines) := Take(format, b, kind);
    ResetConserves(format, b1, kind);
    ConservesThen(format, b, [], taken, lines, b1, [], [], [], Reset(b1, kind));
    var silent := Get(b, kind).text == "" && !Get(b, kind).emitted;
    var extra := if silent then ContentLines(format, kind, content) else [];
    NoticesConserve(format, Reset(b1, kind), extra);
    ConservesThen(format, b, [], taken, lines, Reset(b1, kind), [], [], extra, Reset(b1, kind));
    assert taken + [] == taken && lines + [] == lines;
  }

  lemma ReactConserves(format: Format, s: State, event: Event) returns (taken: seq<Segment>)
    requires Bounded(s.buffers)
    ensures Conserves(format, s.buffers, Recorded(event), taken, React(format, s, event).1, React(format, s, event).0.buffers)
    ensures Bounded(React(format, s, event).0.buffers)
  {
    match event
    case DeltaStart(kind) => taken := BeginConserves(format, s.buffers, kind);
    case Delta(kind, delta) => taken := RecordConserves(format, s.buffers, kind, delta);
    case DeltaEnd(kind, content) => taken := FinishConserves(format, s.buffers, kind, content);
    case Garbled =>
      taken := [];
      NoticesConserve(format, s.buffers, [Notice(NOT_JSON)]);
    case Untyped =>
      taken := [];
      NoticesConserve(format, s.buffers, []);
    case _ =>
      taken := FlushConserves(format, s.buffers);
      var (b, lines) := Flush(format, s.buffers);
      assert OnlyHolds(b, Text);
      var extra := React(format, s, event).1[|lines|..];
      assert React(format, s, event).1 == lines + extra;
      NoticesConserve(format, b, extra);
      ConservesThen(format, s.buffers, [], taken, lines, b, [], [], extra, b);
      assert taken + [] == taken;
  }

  /** Every event conserves the text, and leaves fewer than 240 characters in at most one buffer. */
  lemma StepConserves(format: Format, s: State, event: Event, version: Option<nat>) returns (taken: seq<Segment>)
    requires Bounded(s.buffers)
    ensures Conserves(format, s.buffers, Recorded(event), taken, Step(format, s, event, version).1, Step(format, s, event, version).0.buffers)
    ensures Bounded(Step(format, s, event, version).0.buffers)
  {
    var warn := version.Some? && version.value > SUPPORTED_VERSION && !s.warnedFutureVersion;
    var s1 := if warn then s.(warnedFutureVersion := true) else s;
    taken := ReactConserves(format, s1, event);
    var warning := if warn then [Notice(FUTURE_VERSION)] else [];
    var (s', lines) := React(format, s1, event);
    NoticesConserve(format, s.buffers, warning);
    ConservesThen(format, s.buffers, [], [], warning, s.buffers, Recorded(event), taken, lines, s'.buffers);
    assert [] + taken == taken && [] + Recorded(event) == Recorded(event);
  }

  // ---- whole streams

  datatype Input = Input(event: Event, version: Option<nat>)

  function Run(format: Format, inputs: seq<Input>): (State, seq<Line>) {
    if inputs == [] then (START, [])
    else
      var (s, lines) := Run(format, inputs[..|inputs| - 1]);
      var input := inputs[|inputs| - 1];
      var (s', more) := Step(format, s, input.event, input.version);
      (s', lines + more)
  }

  ghost function AllRecorded(inputs: seq<Input>): seq<Segment> {
    if inputs == [] then [] else AllRecorded(inputs[..|inputs| - 1]) + Recorded(inputs[|inputs| - 1].event)
  }

  /** After any stream of events: the texts shown so far and then the pending one are the deltas received,
      character by character, kinds included and in order of arrival. */
  lemma StreamConserves(format: Format, inputs: seq<Input>) returns (taken: seq<Segment>)
    ensures Chars(AllRecorded(inputs)) == Chars(taken) + Pending(Run(format, inputs).0.buffers)
    ensures OnlyDeltas(Run(format, inputs).1) == Displayed(format, taken)
    ensures Bounded(Run(format, inputs).0.buffers)
  {
    taken := StreamFromEmpty(format, inputs);
    NothingPending(Chars(AllRecorded(inputs)));
  }

  lemma NothingPending(s: seq<(Kind, char)>)
    ensures Pending(EMPTY) + s == s
  {
    PendingOf(EMPTY, Text);
  }

  lemma {:induction false} StreamFromEmpty(format: Format, inputs: seq<Input>) returns (taken: seq<Segment>)
    ensures Conserves(format, EMPTY, AllRecorded(inputs), taken, Run(format, inputs).1, Run(format, inputs).0.buffers)
    ensures Bounded(Run(format, inputs).0.buffers)
  {
    if inputs == [] {
      taken := [];
      NoticesConserve(format, EMPTY, []);
      assert OnlyHolds(EMPTY, Text);
    } else {
      var front, input := inputs[..|inputs| - 1], inputs[|inputs| - 1];
      var t := StreamFromEmpty(format, front);
      var (s, lines) := Run(format, front);
      var more := StepConserves(format, s, input.event, input.version);
      var (s', extra) := Step(format, s, input.event, input.version);
      ConservesThen(format, EMPTY, AllRecorded(front), t, lines, s.buffers, Recorded(input.event), more, extra, s'.buffers);
      taken := t + more;
    }
  }

  /** The text received as deltas of this kind since the kind's block last started or ended. */
  ghost function BlockText(inputs: seq<Input>, kind: Kind): string {
    if inputs == [] then ""
    else
      var event := inputs[|inputs| - 1].event;
      if (event.DeltaStart? || event.DeltaEnd?) && event.kind == kind then ""
      else BlockText(inputs[..|inputs| - 1], kind)
           + if event.Delta? && event.kind == kind && event.delta.Some? then event.delta.value else ""
  }

  /** Whether a kind's block has been silent is what its buffer and its mark say. */
  lemma {:induction false} SilenceIsTracked(format: Format, inputs: seq<Input>, kind: Kind)
    ensures BlockText(inputs, kind) == "" <==>
            Get(Run(format, inputs).0.buffers, kind).text == "" && !Get(Run(format, inputs).0.buffers, kind).emitted
  {
    if inputs != [] {
      SilenceIsTracked(format, inputs[..|inputs| - 1], kind);
      StepSilence(format, Run(format, inputs[..|inputs| - 1]).0, inputs[|inputs| - 1].event, inputs[|inputs| - 1].version, kind);
    }
  }

  ghost predicate Silent(b: Buffers, kind: Kind) {
    Get(b, kind).text == "" && !Get(b, kind).emitted
  }

  lemma TakeSilence(format: Format, b: Buffers, taken: Kind, kind: Kind)
    ensures Silent(Take(format, b, taken).0, kind) <==> Silent(b, kind)
  {
    OnlyHoldsSet(b, taken, DeltaBuffer("", true));
  }

  lemma FlushSilence(format: Format, b: Buffers, kind: Kind)
    ensures Silent(Flush(format, b).0, kind) <==> Silent(b, kind)
  {
    var b1 := Take(format, b, Reasoning).0;
    var b2 := Take(format, b1, Text).0;
    TakeSilence(format, b, Reasoning, kind);
    TakeSilence(format, b1, Text, kind);
    TakeSilence(format, b2, ToolCall, kind);
  }

  lemma FinishSilence(format: Format, b: Buffers, ended: Kind, content: Option<string>, kind: Kind)
    ensures Silent(Finish(format, b, ended, content).0, kind) <==> ended == kind || Silent(b, kind)
  {
    TakeSilence(format, b, ended, kind);
    OnlyHoldsSet(Take(format, b, ended).0, ended, DeltaBuffer("", false));
  }

  lemma StepSilence(format: Format, s: State, event: Event, version: Option<nat>, kind: Kind)
    ensures Silent(Step(format, s, event, version).0.buffers, kind) <==>
            if (event.DeltaStart? || event.DeltaEnd?) && event.kind == kind then true
            else Silent(s.buffers, kind) && !(event.Delta? && event.kind == kind && event.delta.Some? && event.delta.value != "")
  {
    var b := s.buffers;
    match event
    case DeltaStart(k) =>
      FlushSilence(format, b, kind);
      OnlyHoldsSet(Flush(format, b).0, k, DeltaBuffer("", false));
    case DeltaEnd(k, content) => FinishSilence(format, b, k, content, kind);
    case Delta(k, delta) => RecordSilence(format, b, k, delta, kind);
    case Garbled =>
    case Untyped =>
    case _ => FlushSilence(format, b, kind);
  }

  lemma RecordSilence(format: Format, b: Buffers, k: Kind, delta: Option<string>, kind: Kind)
    ensures Silent(Record(format, b, k, delta).0, kind) <==>
            Silent(b, kind) && !(k == kind && delta.Some? && delta.value != "")
  {
    var b1 := if k == Reasoning then b else Take(format, b, Reasoning).0;
    var b2 := if k == Text then b1 else Take(format, b1, Text).0;
    var b3 := if k == ToolCall then b2 else Take(format, b2, ToolCall).0;
    TakeSilence(format, b, Reasoning, kind);
    TakeSilence(format, b1, Text, kind);
    TakeSilence(format, b2, ToolCall, kind);
    if delta.Some? && delta.value != "" {
      var grown := Get(b3, k).(text := Get(b3, k).text + delta.value);
      OnlyHoldsSet(b3, k, grown);
      TakeSilence(format, Set(b3, k, grown), k, kind);
    }
  }

  ghost predicate ShowsContent(lines: seq<Line>) {
    exists i :: 0 <= i < |lines| && lines[i].ContentLine?
  }

  lemma FinishShows(format: Format, b: Buffers, kind: Kind, content: Option<string>)
    ensures ShowsContent(Finish(format, b, kind, content).1) <==> Silent(b, kind) && ContentLines(format, kind, content) != []
  {
    var lines, taken := Finish(format, b, kind, content).1, Take(format, b, kind).1;
    var extra := if Silent(b, kind) then ContentLines(format, kind, content) else [];
    assert lines == taken + extra;
    assert forall i :: 0 <= i < |taken| ==> taken[i].DeltaLine?;
    if extra != [] {
      assert lines[|taken|] == extra[0];
    }
  }

  /** The final content of a block is shown exactly when none of the block's text came as deltas, so a
      block's text is never shown twice. */
  lemma ContentOnlyForSilentBlocks(format: Format, inputs: seq<Input>, kind: Kind, content: Option<string>)
    ensures ShowsContent(Finish(format, Run(format, inputs).0.buffers, kind, content).1)
            <==> BlockText(inputs, kind) == "" && ContentLines(format, kind, content) != []
  {
    SilenceIsTracked(format, inputs, kind);
    FinishShows(format, Run(format, inputs).0.buffers, kind, content);
  }
}
