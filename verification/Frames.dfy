/** The frames of the monitor: a body of content lines cut to the rows left for it, a marker, and a footer. */
module Frames {
  import opened Collections
  import opened Outcomes
  import opened Strings
  import opened Display

  datatype MonitorStyle = MonitorStyle(width: nat, rows: Option<nat>, color: bool)

  /** The footer, and what stands in for it where it takes too many rows. */
  datatype Footers = Footers(full: string, short: string)

  /** "read-only • Ctrl-C exits this view" */
  const MONITOR_FOOTERS := Footers("read-only \U{2022} Ctrl-C exits this view", "read-only")

  const DIM := "2"

  // ---- rows on the screen

  function AtLeastOne(n: nat): nat {
    if n == 0 then 1 else n
  }

  /** The rows a line takes when the terminal wraps it; an empty line takes one. */
  function Rows(w: Widths, line: string, width: nat): (rows: nat)
    ensures rows >= 1
  {
    var cells, columns := AtLeastOne(w.ofText(Stripped(line))), AtLeastOne(width);
    RoundsUp(cells, columns);
    (cells + columns - 1) / columns
  }

  lemma RoundsUp(cells: nat, columns: nat)
    requires cells > 0 && columns > 0
    ensures var rows := (cells + columns - 1) / columns;
            rows >= 1 && (rows - 1) * columns < cells <= rows * columns
  {
    var x := cells + columns - 1;
    var rows := x / columns;
    assert x == rows * columns + x % columns;
    assert (rows - 1) * columns == rows * columns - columns;
  }

  /** They are the line's cells divided by the columns, rounded up. */
  lemma RowsRoundUp(w: Widths, line: string, width: nat)
    ensures var cells := if w.ofText(Stripped(line)) == 0 then 1 else w.ofText(Stripped(line));
            var columns := if width == 0 then 1 else width;
            (Rows(w, line, width) - 1) * columns < cells <= Rows(w, line, width) * columns
  {
    RoundsUp(AtLeastOne(w.ofText(Stripped(line))), AtLeastOne(width));
  }

  /** What a terminal does: it fills a row, and goes on behind it with the cells that are left. */
  function FilledRows(cells: nat, columns: nat): (rows: nat)
    requires cells > 0 && columns > 0
    ensures rows >= 1
    decreases cells
  {
    if cells <= columns then 1 else 1 + FilledRows(cells - columns, columns)
  }

  lemma {:induction false} FilledRowsRoundUp(cells: nat, columns: nat)
    requires cells > 0 && columns > 0
    ensures (FilledRows(cells, columns) - 1) * columns < cells <= FilledRows(cells, columns) * columns
    decreases cells
  {
    if cells > columns {
      FilledRowsRoundUp(cells - columns, columns);
      var rows := FilledRows(cells - columns, columns);
      assert (rows + 1) * columns == rows * columns + columns && rows * columns == (rows - 1) * columns + columns;
    }
  }

  lemma MoreRows(fewer: nat, more: nat, columns: nat)
    ensures fewer * columns <= (fewer + more) * columns
  {
    assert (fewer + more) * columns == fewer * columns + more * columns;
  }

  lemma OneCeiling(a: nat, b: nat, cells: nat, columns: nat)
    requires (a - 1) * columns < cells <= a * columns && (b - 1) * columns < cells <= b * columns
    ensures a <= b
  {
    if a > b {
      MoreRows(b, a - 1 - b, columns);
    }
  }

  /** The rows of the screen that a line fills. */
  function ScreenHeight(w: Widths, line: string, width: nat): nat {
    var cells := w.ofText(Stripped(line));
    FilledRows(if cells == 0 then 1 else cells, if width == 0 then 1 else width)
  }

  /** The program's count is what the terminal does. */
  lemma RowsAreFilled(w: Widths, line: string, width: nat)
    ensures Rows(w, line, width) == ScreenHeight(w, line, width)
  {
    var cells, columns := AtLeastOne(w.ofText(Stripped(line))), AtLeastOne(width);
    RowsRoundUp(w, line, width);
    FilledRowsRoundUp(cells, columns);
    OneCeiling(Rows(w, line, width), FilledRows(cells, columns), cells, columns);
    OneCeiling(FilledRows(cells, columns), Rows(w, line, width), cells, columns);
  }

  function TotalRows(w: Widths, lines: seq<string>, width: nat): nat {
    if |lines| == 0 then 0 else Rows(w, lines[0], width) + TotalRows(w, lines[1..], width)
  }

  lemma {:induction false} TotalRowsConcat(w: Widths, a: seq<string>, b: seq<string>, width: nat)
    ensures TotalRows(w, a + b, width) == TotalRows(w, a, width) + TotalRows(w, b, width)
  {
    if |a| == 0 {
      assert a + b == b;
    } else {
      assert (a + b)[0] == a[0] && (a + b)[1..] == a[1..] + b;
      TotalRowsConcat(w, a[1..], b, width);
    }
  }

  /** The rows a text fills: those of its terminated lines, and of the rest if the rest takes any cell. */
  function ScreenRows(w: Widths, text: string, width: nat): nat
    decreases |text|
  {
    var i := IndexOf(text, '\n');
    if i < |text| then ScreenHeight(w, text[..i], width) + ScreenRows(w, text[i + 1..], width)
    else if w.ofText(Stripped(text)) == 0 then 0
    else ScreenHeight(w, text, width)
  }

  // ---- the body

  /** Escape codes and white space only. */
  predicate ShowsNothing(line: string) {
    |Trim(Stripped(line))| == 0
  }

  /** How many of the first `n` lines are left when those at the end that show nothing are cut. */
  function ShownCount(lines: seq<string>, n: nat): (k: nat)
    requires n <= |lines|
    ensures k <= n && (forall i :: k <= i < n ==> ShowsNothing(lines[i])) && (k > 0 ==> !ShowsNothing(lines[k - 1]))
  {
    if n > 0 && ShowsNothing(lines[n - 1]) then ShownCount(lines, n - 1) else n
  }

  /** What is cut from the end shows nothing; what ends the rest shows something. */
  function WithoutBlankEnd(lines: seq<string>): (kept: seq<string>)
    ensures |kept| <= |lines| && kept == lines[..|kept|]
    ensures forall i :: |kept| <= i < |lines| ==> ShowsNothing(lines[i])
    ensures |kept| > 0 ==> !ShowsNothing(kept[|kept| - 1])
  {
    lines[..ShownCount(lines, |lines|)]
  }

  lemma LastLine(all: seq<string>, lines: seq<string>)
    requires 0 < |lines| <= |all| && lines == all[..|lines|]
    ensures lines[..|lines| - 1] == all[..|lines| - 1]
    ensures ShownCount(all, |lines|) == if ShowsNothing(lines[|lines| - 1]) then ShownCount(all, |lines| - 1) else |lines|
  {
  }

  method TrimmedLogicalLines(content: string) returns (lines: seq<string>)
    ensures lines == WithoutBlankEnd(TextLines(content))
  {
    lines := TextLines(content);
    ghost var all := lines;
    while |lines| > 0
      invariant |lines| <= |all| && lines == all[..|lines|]
      invariant ShownCount(all, |lines|) == ShownCount(all, |all|)
    {
      LastLine(all, lines);
      var visible := StripAnsi(lines[|lines| - 1]);
      if |Trim(visible)| > 0 {
        break;
      }
      lines := lines[..|lines| - 1];
    }
  }

  function LiveFooter(w: Widths, footers: Footers, style: MonitorStyle): string {
    if style.rows.None? then footers.full
    else if style.rows.value <= 1 then ""
    else if Rows(w, footers.full, style.width) <= style.rows.value - 1 then footers.full
    else Truncated(w, footers.short, style.width)
  }

  function FooterRows(w: Widths, footers: Footers, style: MonitorStyle): nat {
    if |LiveFooter(w, footers, style)| == 0 then 0 else Rows(w, LiveFooter(w, footers, style), style.width)
  }

  /** Rows left for the body: one stays free for the cursor. */
  function BodyRowBudget(w: Widths, footers: Footers, style: MonitorStyle): Option<nat> {
    if style.rows.None? then None
    else Some(if style.rows.value < FooterRows(w, footers, style) + 1 then 0 else style.rows.value - (FooterRows(w, footers, style) + 1))
  }

  /** How many lines at the front fill no more than some rows. */
  function Kept(w: Widths, lines: seq<string>, width: nat, budget: nat): (k: nat)
    ensures k <= |lines|
  {
    if |lines| == 0 || Rows(w, lines[0], width) > budget then 0
    else 1 + Kept(w, lines[1..], width, budget - Rows(w, lines[0], width))
  }

  lemma PrefixRows(w: Widths, lines: seq<string>, k: nat, width: nat)
    requires 0 < k <= |lines|
    ensures TotalRows(w, lines[..k], width) == Rows(w, lines[0], width) + TotalRows(w, lines[1..][..k - 1], width)
  {
    assert lines[..k][1..] == lines[1..][..k - 1];
  }

  /** They are as many as possible. */
  lemma {:induction false} KeptIsLongest(w: Widths, lines: seq<string>, width: nat, budget: nat)
    ensures var k := Kept(w, lines, width, budget);
            && TotalRows(w, lines[..k], width) <= budget
            && (k < |lines| ==> TotalRows(w, lines[..k + 1], width) > budget)
            && (k == |lines| <==> TotalRows(w, lines, width) <= budget)
  {
    if |lines| > 0 && Rows(w, lines[0], width) <= budget {
      var rest := lines[1..];
      var k := Kept(w, rest, width, budget - Rows(w, lines[0], width));
      KeptIsLongest(w, rest, width, budget - Rows(w, lines[0], width));
      PrefixRows(w, lines, k + 1, width);
      if k < |rest| {
        PrefixRows(w, lines, k + 2, width);
      }
      PrefixRows(w, lines, |lines|, width);
    } else if |lines| > 0 {
      PrefixRows(w, lines, 1, width);
    }
  }

  datatype Body = Body(lines: seq<string>, kept: nat, elided: nat)

  function MinusOne(n: nat): nat {
    if n == 0 then 0 else n - 1
  }

  /** All lines if they fit; otherwise a row is set aside for the marker that says how many are missing. */
  function BodyFor(w: Widths, lines: seq<string>, width: nat, budget: Option<nat>): (b: Body)
    ensures b.lines == lines && b.kept <= |lines|
  {
    if budget.None? || TotalRows(w, lines, width) <= budget.value then Body(lines, |lines|, 0)
    else
      var kept := Kept(w, lines, width, MinusOne(budget.value));
      Body(lines, kept, if budget.value > 0 then |lines| - kept else 0)
  }

  function BodyOf(w: Widths, footers: Footers, content: string, style: MonitorStyle): (b: Body)
    ensures b.kept <= |b.lines|
  {
    BodyFor(w, WithoutBlankEnd(TextLines(content)), style.width, BodyRowBudget(w, footers, style))
  }

  method BoundedBody(w: Widths, footers: Footers, content: string, style: MonitorStyle) returns (lines: seq<string>, kept: nat, elided: nat)
    ensures Body(lines, kept, elided) == BodyOf(w, footers, content, style)
  {
    lines := TrimmedLogicalLines(content);
    var budget := BodyRowBudget(w, footers, style);
    kept, elided := |lines|, 0;
    if budget.Some? && TotalRows(w, lines, style.width) > budget.value {
      kept := KeepLines(w, lines, style.width, MinusOne(budget.value));
      if budget.value > 0 {
        elided := |lines| - kept;
      }
    }
  }

  /** The loop over the lines. */
  method KeepLines(w: Widths, lines: seq<string>, width: nat, limit: nat) returns (kept: nat)
    ensures kept == Kept(w, lines, width, limit)
  {
    var used := 0;
    kept := 0;
    assert lines[0..] == lines;
    while kept < |lines|
      invariant kept <= |lines| && used <= limit
      invariant Kept(w, lines, width, limit) == kept + Kept(w, lines[kept..], width, limit - used)
    {
      var rows := Rows(w, lines[kept], width);
      if used + rows > limit {
        break;
      }
      assert lines[kept..][1..] == lines[kept + 1..];
      used := used + rows;
      kept := kept + 1;
    }
  }

  // ---- the frame

  function Digits(n: nat): string {
    if n < 10 then [('0' as int + n) as char] else Digits(n / 10) + [('0' as int + n % 10) as char]
  }

  /** "… n more lines — enlarge pane" */
  function Marker(elided: nat): string {
    [ELLIPSIS] + " " + Digits(elided) + " more lines \U{2014} enlarge pane"
  }

  /** The marker, if lines are missing, and the footer, if there is room for one. */
  function EndLines(w: Widths, footers: Footers, elided: nat, style: MonitorStyle): seq<string> {
    var footer := LiveFooter(w, footers, style);
    (if elided > 0 then [Paint(style.color, Truncated(w, Marker(elided), style.width), DIM)] else [])
    + (if |footer| > 0 then [Paint(style.color, footer, DIM)] else [])
  }

  /** What a frame shows, line by line. */
  function FrameLines(w: Widths, footers: Footers, body: Body, style: MonitorStyle): seq<string>
    requires body.kept <= |body.lines|
  {
    body.lines[..body.kept] + EndLines(w, footers, body.elided, style)
  }

  const LINE_END := Code("", 'K')
  const HEADER := Code("?2026", 'h') + Code("", 'H')
  const TRAILER := Code("0", 'J') + Code("?2026", 'l')

  function Printed(lines: seq<string>, end: string): string {
    if |lines| == 0 then "" else lines[0] + end + ['\n'] + Printed(lines[1..], end)
  }

  /** Drawn over the frame before: from the top left, each line cleared to its end, then the rest cleared. */
  function LiveText(lines: seq<string>): string {
    HEADER + Printed(lines, LINE_END) + TRAILER
  }

  /** Spelled out: update mode on, cursor home; each line with what is behind it cleared; the rest of the screen
      cleared, update mode off. */
  lemma LiveTextIs(lines: seq<string>, line: string)
    ensures LiveText([]) == "\U{001B}[?2026h\U{001B}[H" + "\U{001B}[0J\U{001B}[?2026l"
    ensures LiveText(lines + [line])
         == "\U{001B}[?2026h\U{001B}[H" + (Printed(lines, LINE_END) + line + "\U{001B}[K" + "\n") + "\U{001B}[0J\U{001B}[?2026l"
  {
    PrintedMore(lines, line, LINE_END);
    assert LINE_END == "\U{001B}[K" && HEADER == "\U{001B}[?2026h\U{001B}[H" && TRAILER == "\U{001B}[0J\U{001B}[?2026l";
  }

  lemma {:induction false} PrintedMore(lines: seq<string>, line: string, end: string)
    ensures Printed(lines + [line], end) == Printed(lines, end) + line + end + ['\n']
  {
    if |lines| == 0 {
      assert lines + [line] == [line] && |[line][1..]| == 0;
      assert line + end + ['\n'] + "" == "" + line + end + ['\n'];
    } else {
      assert (lines + [line])[0] == lines[0] && (lines + [line])[1..] == lines[1..] + [line];
      PrintedMore(lines[1..], line, end);
      Regroup(lines[0] + end + ['\n'], Printed(lines[1..], end), line, end);
    }
  }

  lemma Regroup(a: string, b: string, c: string, d: string)
    ensures a + (b + c + d + ['\n']) == a + b + c + d + ['\n']
  {
  }

  lemma {:induction false} PrintedConcat(a: seq<string>, b: seq<string>, end: string)
    ensures Printed(a + b, end) == Printed(a, end) + Printed(b, end)
  {
    if |a| == 0 {
      assert a + b == b;
    } else {
      assert (a + b)[0] == a[0] && (a + b)[1..] == a[1..] + b;
      PrintedConcat(a[1..], b, end);
    }
  }

  lemma PushLine(front: string, lines: seq<string>, line: string, end: string)
    ensures front + Printed(lines, end) + line + end + ['\n'] == front + Printed(lines + [line], end)
  {
    PrintedMore(lines, line, end);
    Regroup(front, Printed(lines, end), line, end);
  }

  method ComposeLiveFrame(w: Widths, footers: Footers, content: string, style: MonitorStyle) returns (frame: string)
    ensures frame == LiveText(FrameLines(w, footers, BodyOf(w, footers, content, style), style))
  {
    var lines, kept, elided := BoundedBody(w, footers, content, style);
    frame := AppendBody(HEADER, lines[..kept], LINE_END);
    frame := AppendEnd(w, footers, frame, elided, style, LINE_END);
    PrintedConcat(lines[..kept], EndLines(w, footers, elided, style), LINE_END);
    ConcatAssoc(HEADER, Printed(lines[..kept], LINE_END), Printed(EndLines(w, footers, elided, style), LINE_END));
    frame := frame + TRAILER;
  }

  method ComposeStaticFrame(w: Widths, footers: Footers, content: string, style: MonitorStyle) returns (frame: string)
    ensures frame == Printed(FrameLines(w, footers, BodyOf(w, footers, content, style), style), "")
  {
    var lines, kept, elided := BoundedBody(w, footers, content, style);
    frame := AppendBody("", lines[..kept], "");
    frame := AppendEnd(w, footers, frame, elided, style, "");
    PrintedConcat(lines[..kept], EndLines(w, footers, elided, style), "");
    assert "" + Printed(lines[..kept], "") == Printed(lines[..kept], "");
  }

  /** The loop that appends the body. */
  method AppendBody(start: string, lines: seq<string>, end: string) returns (frame: string)
    ensures frame == start + Printed(lines, end)
  {
    frame := start;
    assert start + Printed([], end) == start;
    for i := 0 to |lines|
      invariant frame == start + Printed(lines[..i], end)
    {
      assert lines[..i + 1] == lines[..i] + [lines[i]];
      PushLine(start, lines[..i], lines[i], end);
      frame := frame + lines[i];
      frame := frame + end + ['\n'];
    }
    assert lines[..|lines|] == lines;
  }

  /** Appends the marker and the footer. */
  method AppendEnd(w: Widths, footers: Footers, start: string, elided: nat, style: MonitorStyle, end: string) returns (frame: string)
    ensures frame == start + Printed(EndLines(w, footers, elided, style), end)
  {
    frame := start;
    assert start + "" == start;
    ghost var shown: seq<string> := [];
    if elided > 0 {
      var marker := TruncateDisplay(w, Marker(elided), style.width);
      var painted := Paint(style.color, marker, DIM);
      PushLine(start, shown, painted, end);
      frame := frame + painted;
      frame := frame + end + ['\n'];
      shown := shown + [painted];
    }
    var footer := LiveFooter(w, footers, style);
    if |footer| > 0 {
      var painted := Paint(style.color, footer, DIM);
      PushLine(start, shown, painted, end);
      frame := frame + painted;
      frame := frame + end + ['\n'];
      shown := shown + [painted];
    }
    assert shown == EndLines(w, footers, elided, style);
  }

  // ---- how many rows a frame fills

  lemma SameRows(w: Widths, a: string, b: string, width: nat)
    requires Stripped(a) == Stripped(b)
    ensures Rows(w, a, width) == Rows(w, b, width)
  {
  }

  lemma ScreenRowsOfLine(w: Widths, line: string, rest: string, width: nat)
    requires OneLine(line)
    ensures ScreenRows(w, line + ['\n'] + rest, width) == Rows(w, line, width) + ScreenRows(w, rest, width)
  {
    var text := line + ['\n'] + rest;
    IndexOfIs(line, '\n', rest);
    RowsAreFilled(w, line, width);
    assert text[..|line|] == line && text[|line| + 1..] == rest;
  }

  lemma EndTakesNoRow(w: Widths, line: string, end: string, width: nat)
    requires |end| == 0 || end == LINE_END
    ensures Rows(w, line + end, width) == Rows(w, line, width)
  {
    if |end| == 0 {
      assert line + end == line;
    } else {
      CodeBehind(line, "", 'K');
      SameRows(w, line + end, line, width);
    }
  }

  predicate AllOneLine(lines: seq<string>) {
    forall i :: 0 <= i < |lines| ==> OneLine(lines[i])
  }

  lemma ScreenRowsOfPrinted(w: Widths, line: string, end: string, more: string, rest: string, width: nat)
    requires OneLine(line) && (|end| == 0 || end == LINE_END)
    ensures ScreenRows(w, line + end + ['\n'] + more + rest, width) == Rows(w, line, width) + ScreenRows(w, more + rest, width)
  {
    ConcatAssoc(line + end + ['\n'], more, rest);
    ScreenRowsOfLine(w, line + end, more + rest, width);
    EndTakesNoRow(w, line, end, width);
  }

  lemma {:induction false} PrintedRows(w: Widths, lines: seq<string>, end: string, rest: string, width: nat)
    requires AllOneLine(lines) && (|end| == 0 || end == LINE_END)
    ensures ScreenRows(w, Printed(lines, end) + rest, width) == TotalRows(w, lines, width) + ScreenRows(w, rest, width)
    decreases |lines|
  {
    if |lines| == 0 {
      assert Printed(lines, end) + rest == rest;
    } else {
      PrintedRows(w, lines[1..], end, rest, width);
      ScreenRowsOfPrinted(w, lines[0], end, Printed(lines[1..], end), rest, width);
    }
  }

  ghost predicate Invisible(front: string) {
    OneLine(front) && forall s {:trigger front + s} :: Stripped(front + s) == Stripped(s)
  }

  lemma InvisibleFront(w: Widths, front: string, text: string, width: nat)
    requires Invisible(front)
    ensures ScreenRows(w, front + text, width) == ScreenRows(w, text, width)
  {
    var i := IndexOf(text, '\n');
    if i < |text| {
      var line, rest := text[..i], text[i + 1..];
      assert text == line + ['\n'] + rest;
      assert front + text == front + line + ['\n'] + rest;
      ScreenRowsOfLine(w, line, rest, width);
      ScreenRowsOfLine(w, front + line, rest, width);
      SameRows(w, front + line, line, width);
    } else {
      LastRows(w, text, width);
      LastRows(w, front + text, width);
      SameRows(w, front + text, text, width);
    }
  }

  lemma LastRows(w: Widths, text: string, width: nat)
    requires OneLine(text)
    ensures ScreenRows(w, text, width) == if w.ofText(Stripped(text)) == 0 then 0 else Rows(w, text, width)
  {
    RowsAreFilled(w, text, width);
  }

  lemma HeaderIsInvisible()
    ensures Invisible(HEADER)
  {
    forall s {:trigger HEADER + s}
      ensures Stripped(HEADER + s) == Stripped(s)
    {
      assert HEADER + s == Code("?2026", 'h') + (Code("", 'H') + s);
      CodeInFront("?2026", 'h', Code("", 'H') + s);
      CodeInFront("", 'H', s);
    }
  }

  lemma CodeAlone(parameters: string, final: char)
    requires NoLetter(parameters) && IsLetter(final)
    ensures |Stripped(Code(parameters, final))| == 0
  {
    CodeInFront(parameters, final, "");
    assert Code(parameters, final) + "" == Code(parameters, final);
  }

  lemma CodesAreOneLine(a: string, p: char, b: string, q: char)
    requires OneLine(a) && OneLine(b) && p != '\n' && q != '\n'
    ensures OneLine(Code(a, p) + Code(b, q))
  {
  }

  lemma TrailerTakesNoRow(w: Widths, width: nat)
    requires w.ofText("") == 0
    ensures ScreenRows(w, TRAILER, width) == 0
  {
    CodeAlone("0", 'J');
    CodeBehind(Code("0", 'J'), "?2026", 'l');
    CodesAreOneLine("0", 'J', "?2026", 'l');
    LastRows(w, TRAILER, width);
    assert Stripped(TRAILER) == "";
  }

  /** The text of a frame fills the rows of its lines. */
  lemma FrameTextRows(w: Widths, lines: seq<string>, width: nat)
    requires AllOneLine(lines) && w.ofText("") == 0
    ensures ScreenRows(w, LiveText(lines), width) == TotalRows(w, lines, width)
    ensures ScreenRows(w, Printed(lines, ""), width) == TotalRows(w, lines, width)
  {
    HeaderIsInvisible();
    var text := Printed(lines, LINE_END) + TRAILER;
    assert LiveText(lines) == HEADER + text;
    InvisibleFront(w, HEADER, text, width);
    PrintedRows(w, lines, LINE_END, TRAILER, width);
    TrailerTakesNoRow(w, width);
    PrintedRows(w, lines, "", "", width);
    assert Printed(lines, "") + "" == Printed(lines, "");
  }

  // ---- a frame fits

  lemma {:induction false} DigitsAreOneLine(n: nat)
    ensures forall i :: 0 <= i < |Digits(n)| ==> '0' <= Digits(n)[i] <= '9'
  {
    if n >= 10 {
      DigitsAreOneLine(n / 10);
    }
  }

  function ValueOf(digits: string): int {
    if |digits| == 0 then 0 else ValueOf(digits[..|digits| - 1]) * 10 + (digits[|digits| - 1] as int - '0' as int)
  }

  /** The marker's digits are those of the number. */
  lemma {:induction false} DigitsName(n: nat)
    ensures ValueOf(Digits(n)) == n
  {
    if n >= 10 {
      DigitsName(n / 10);
      assert Digits(n)[..|Digits(n)| - 1] == Digits(n / 10);
    } else {
      assert |Digits(n)[..0]| == 0;
    }
  }

  /** The digits a text starts with. */
  function LeadingDigits(s: string): string {
    if |s| == 0 || !('0' <= s[0] <= '9') then "" else [s[0]] + LeadingDigits(s[1..])
  }

  lemma {:induction false} LeadingDigitsAre(digits: string, rest: string)
    requires forall i :: 0 <= i < |digits| ==> '0' <= digits[i] <= '9'
    requires |rest| > 0 && !('0' <= rest[0] <= '9')
    ensures LeadingDigits(digits + rest) == digits
  {
    if |digits| == 0 {
      assert digits + rest == rest;
    } else {
      assert (digits + rest)[1..] == digits[1..] + rest;
      LeadingDigitsAre(digits[1..], rest);
    }
  }

  /** The number in the marker, behind the ellipsis and a space, is that of the missing lines. */
  lemma MarkerNames(elided: nat)
    ensures Marker(elided)[..2] == [ELLIPSIS, ' '] && ValueOf(LeadingDigits(Marker(elided)[2..])) == elided
  {
    var rest := " more lines \U{2014} enlarge pane";
    DigitsAreOneLine(elided);
    DigitsName(elided);
    MarkerParts(Digits(elided), rest);
    LeadingDigitsAre(Digits(elided), rest);
  }

  lemma MarkerParts(digits: string, rest: string)
    ensures ([ELLIPSIS] + " " + digits + rest)[..2] == [ELLIPSIS, ' '] && ([ELLIPSIS] + " " + digits + rest)[2..] == digits + rest
  {
  }

  /** The characters of the program's own lines: printable ASCII, the ellipsis, the dash and the bullet. */
  const PLAIN: set<char> := set c: char | ' ' <= c <= '~' || c in {ELLIPSIS, '\U{2014}', '\U{2022}'}

  predicate ValidFooters(footers: Footers) {
    Over(PLAIN, footers.full) && Over(PLAIN, footers.short) && |footers.full| > 0 && |footers.short| > 0
  }

  lemma MonitorFootersAreValid()
    ensures ValidFooters(MONITOR_FOOTERS)
  {
  }

  lemma MarkerIsPlain(n: nat)
    ensures Over(PLAIN, Marker(n))
  {
    DigitsAreOneLine(n);
  }

  lemma PaintedPlain(w: Widths, color: bool, s: string, width: nat)
    requires Over(PLAIN, s)
    ensures OneLine(Paint(color, s, DIM)) && Rows(w, Paint(color, s, DIM), width) == Rows(w, s, width)
    ensures w.ofText(s) <= width ==> Rows(w, s, width) == 1
  {
    PaintTakesNoCell(color, s, DIM);
    SameRows(w, Paint(color, s, DIM), s, width);
    NothingToStrip(s);
  }

  /** The marker, cut to the width, takes one row. */
  lemma MarkerTakesOneRow(w: Widths, color: bool, n: nat, width: nat)
    requires Measures(w, PLAIN)
    ensures var marker := Paint(color, Truncated(w, Marker(n), width), DIM);
            OneLine(marker) && Rows(w, marker, width) == 1
  {
    MarkerIsPlain(n);
    TruncatedFits(w, PLAIN, Marker(n), width);
    PaintedPlain(w, color, Truncated(w, Marker(n), width), width);
  }

  /** The footer leaves the cursor its row. */
  lemma FooterFits(w: Widths, footers: Footers, style: MonitorStyle)
    requires Measures(w, PLAIN) && ValidFooters(footers)
    ensures Over(PLAIN, LiveFooter(w, footers, style))
    ensures style.rows.Some? ==> FooterRows(w, footers, style) <= MinusOne(style.rows.value)
    ensures style.rows.Some? && style.rows.value >= 2 && style.width > 0 ==> |LiveFooter(w, footers, style)| > 0
  {
    TruncatedFits(w, PLAIN, footers.short, style.width);
    PaintedPlain(w, false, Truncated(w, footers.short, style.width), style.width);
  }

  /** It is the full one whenever the screen has room for that above the cursor, or is not limited at all. */
  lemma FooterIsFull(w: Widths, footers: Footers, style: MonitorStyle)
    ensures style.rows.None? || (style.rows.value >= 2 && ScreenHeight(w, footers.full, style.width) + 1 <= style.rows.value) ==>
              LiveFooter(w, footers, style) == footers.full
    ensures style.rows.Some? && style.rows.value >= 2 && ScreenHeight(w, footers.full, style.width) + 1 > style.rows.value ==>
              LiveFooter(w, footers, style) == Truncated(w, footers.short, style.width)
    ensures style.rows.Some? && style.rows.value <= 1 ==> |LiveFooter(w, footers, style)| == 0
  {
    RowsAreFilled(w, footers.full, style.width);
  }

  lemma EndLinesRows(w: Widths, footers: Footers, elided: nat, style: MonitorStyle)
    requires Measures(w, PLAIN) && ValidFooters(footers)
    ensures AllOneLine(EndLines(w, footers, elided, style))
    ensures TotalRows(w, EndLines(w, footers, elided, style), style.width) == (if elided > 0 then 1 else 0) + FooterRows(w, footers, style)
  {
    var footer := LiveFooter(w, footers, style);
    var marker := Paint(style.color, Truncated(w, Marker(elided), style.width), DIM);
    FooterFits(w, footers, style);
    PaintedPlain(w, style.color, footer, style.width);
    MarkerTakesOneRow(w, style.color, elided, style.width);
    var a := if elided > 0 then [marker] else [];
    var b := if |footer| > 0 then [Paint(style.color, footer, DIM)] else [];
    TotalRowsConcat(w, a, b, style.width);
    OneLineRows(w, marker, style.width);
    OneLineRows(w, Paint(style.color, footer, DIM), style.width);
  }

  lemma OneLineRows(w: Widths, line: string, width: nat)
    ensures TotalRows(w, [line], width) == Rows(w, line, width)
  {
    var lines := [line];
    assert |lines[1..]| == 0;
  }

  lemma BodyRows(w: Widths, lines: seq<string>, width: nat, budget: nat)
    ensures var b := BodyFor(w, lines, width, Some(budget));
            TotalRows(w, lines[..b.kept], width) + (if b.elided > 0 then 1 else 0) <= budget
  {
    KeptIsLongest(w, lines, width, MinusOne(budget));
    assert lines[..|lines|] == lines;
  }

  lemma OneMoreOneLine(line: string, lines: seq<string>)
    requires OneLine(line) && AllOneLine(lines)
    ensures AllOneLine([line] + lines)
  {
  }

  lemma {:induction false} TextLinesAreOneLine(text: string)
    ensures AllOneLine(TextLines(text))
    decreases |text|
  {
    if |text| > 0 {
      var i := IndexOf(text, '\n');
      if i == |text| {
        assert TextLines(text) == [text];
      } else {
        TextLinesAreOneLine(text[i + 1..]);
        OneMoreOneLine(StripReturn(text[..i]), TextLines(text[i + 1..]));
      }
    }
  }

  lemma PrefixIsOneLine(lines: seq<string>, kept: nat, more: seq<string>)
    requires kept <= |lines| && AllOneLine(lines) && AllOneLine(more)
    ensures AllOneLine(lines[..kept] + more)
  {
  }

  lemma BodyIsOneLine(w: Widths, footers: Footers, content: string, style: MonitorStyle)
    ensures AllOneLine(BodyOf(w, footers, content, style).lines)
  {
    TextLinesAreOneLine(content);
  }

  lemma FrameLinesFit(w: Widths, footers: Footers, content: string, style: MonitorStyle)
    requires Measures(w, PLAIN) && ValidFooters(footers)
    ensures AllOneLine(FrameLines(w, footers, BodyOf(w, footers, content, style), style))
    ensures style.rows.Some? ==>
      TotalRows(w, FrameLines(w, footers, BodyOf(w, footers, content, style), style), style.width) <= MinusOne(style.rows.value)
  {
    var body := BodyOf(w, footers, content, style);
    var end := EndLines(w, footers, body.elided, style);
    BodyIsOneLine(w, footers, content, style);
    EndLinesRows(w, footers, body.elided, style);
    PrefixIsOneLine(body.lines, body.kept, end);
    TotalRowsConcat(w, body.lines[..body.kept], end, style.width);
    FooterFits(w, footers, style);
    if style.rows.Some? {
      BodyRows(w, body.lines, style.width, BodyRowBudget(w, footers, style).value);
    }
  }

  /** Every frame leaves the cursor's row free: it fills at most one row less than the terminal has, for any
      content, whatever a terminal makes of its characters. Its live and its static form fill the same rows. */
  lemma FrameFits(w: Widths, footers: Footers, content: string, style: MonitorStyle)
    requires Measures(w, PLAIN) && ValidFooters(footers) && style.rows.Some?
    ensures var lines := FrameLines(w, footers, BodyOf(w, footers, content, style), style);
            ScreenRows(w, LiveText(lines), style.width) == ScreenRows(w, Printed(lines, ""), style.width) <= MinusOne(style.rows.value)
  {
    FrameLinesFit(w, footers, content, style);
    FrameTextRows(w, FrameLines(w, footers, BodyOf(w, footers, content, style), style), style.width);
  }

  /** So do the frames with the monitor's own footers. */
  lemma MonitorFrameFits(w: Widths, content: string, style: MonitorStyle)
    requires Measures(w, PLAIN) && style.rows.Some?
    ensures var lines := FrameLines(w, MONITOR_FOOTERS, BodyOf(w, MONITOR_FOOTERS, content, style), style);
            ScreenRows(w, LiveText(lines), style.width) == ScreenRows(w, Printed(lines, ""), style.width) <= MinusOne(style.rows.value)
  {
    MonitorFootersAreValid();
    FrameFits(w, MONITOR_FOOTERS, content, style);
  }

  /** All lines are kept exactly when they fit; otherwise as many as fit above a marker, and the number of
      the others is counted unless there is no row for a body at all. */
  lemma BodyIsLongest(w: Widths, lines: seq<string>, width: nat, budget: Option<nat>)
    ensures var b := BodyFor(w, lines, width, budget);
            && (b.kept == |lines| <==> budget.None? || TotalRows(w, lines, width) <= budget.value)
            && b.elided == (if budget.Some? && budget.value == 0 then 0 else |lines| - b.kept)
            && (b.kept < |lines| && budget.value > 0 ==> TotalRows(w, lines[..b.kept + 1], width) + 1 > budget.value)
  {
    if budget.Some? {
      KeptIsLongest(w, lines, width, MinusOne(budget.value));
    }
  }

  lemma ShownLines(a: seq<string>, marker: seq<string>, footer: seq<string>)
    ensures (a + (marker + footer))[..|a|] == a
    ensures |marker| > 0 ==> (a + (marker + footer))[|a|] == marker[0]
  {
  }

  /** A frame shows a prefix of the content's lines, and, whenever it drops some though it has rows for a body,
      a marker of one row that names exactly how many. */
  lemma FrameShowsPrefix(w: Widths, footers: Footers, content: string, style: MonitorStyle)
    requires Measures(w, PLAIN)
    ensures var body := BodyOf(w, footers, content, style);
            var lines, shown := WithoutBlankEnd(TextLines(content)), FrameLines(w, footers, body, style);
            && body.kept <= |lines| && body.kept <= |shown| && shown[..body.kept] == lines[..body.kept]
            && (body.elided > 0 ==>
                  && body.elided == |lines| - body.kept && body.kept < |shown|
                  && shown[body.kept] == Paint(style.color, Truncated(w, Marker(body.elided), style.width), DIM)
                  && Rows(w, shown[body.kept], style.width) == 1)
  {
    var body := BodyOf(w, footers, content, style);
    var footer := LiveFooter(w, footers, style);
    var marker := Paint(style.color, Truncated(w, Marker(body.elided), style.width), DIM);
    MarkerTakesOneRow(w, style.color, body.elided, style.width);
    ShownLines(body.lines[..body.kept], if body.elided > 0 then [marker] else [],
      if |footer| > 0 then [Paint(style.color, footer, DIM)] else []);
  }

  /** Behind the content a frame has the marker, if lines are missing, and the footer, if there is one, and
      nothing else. */
  lemma FrameEndsWithFooter(w: Widths, footers: Footers, content: string, style: MonitorStyle)
    ensures var (body, footer) := (BodyOf(w, footers, content, style), LiveFooter(w, footers, style));
            var shown := FrameLines(w, footers, body, style);
            && |shown| == body.kept + (if body.elided > 0 then 1 else 0) + (if |footer| > 0 then 1 else 0)
            && (|footer| > 0 ==> shown[|shown| - 1] == Paint(style.color, footer, DIM))
  {
  }

  /** The rows of the screen that are left above the cursor and the footer. */
  function RoomForBody(w: Widths, footers: Footers, style: MonitorStyle): int
    requires style.rows.Some?
  {
    var footer := LiveFooter(w, footers, style);
    style.rows.value - 1 - if |footer| == 0 then 0 else ScreenHeight(w, footer, style.width)
  }

  lemma BudgetIsRoom(w: Widths, footers: Footers, style: MonitorStyle)
    requires style.rows.Some?
    ensures var room := RoomForBody(w, footers, style);
            BodyRowBudget(w, footers, style) == Some(if room < 0 then 0 else room)
  {
    RowsAreFilled(w, LiveFooter(w, footers, style), style.width);
  }

  /** The body for some room. */
  lemma BodyFillsRoom(w: Widths, lines: seq<string>, width: nat, room: int)
    ensures var body := BodyFor(w, lines, width, Some(if room < 0 then 0 else room));
            && (TotalRows(w, lines, width) <= room ==> body.kept == |lines| && body.elided == 0)
            && (TotalRows(w, lines, width) > room > 0 ==>
                  && body.kept < |lines| && body.elided == |lines| - body.kept
                  && TotalRows(w, lines[..body.kept], width) + 1 <= room
                  && TotalRows(w, lines[..body.kept + 1], width) + 1 > room)
            && (room <= 0 < TotalRows(w, lines, width) ==> body.kept == 0 && body.elided == 0)
  {
    var budget := if room < 0 then 0 else room;
    BodyIsLongest(w, lines, width, Some(budget));
    NoBody(w, lines, width);
    BodyRows(w, lines, width, budget);
  }

  /** A frame shows as much as the screen has room for: everything if it is not limited or if everything fits;
      otherwise, if there is a row for a body at all, so many lines that one more would not fit above the marker. */
  lemma FrameShowsMost(w: Widths, footers: Footers, content: string, style: MonitorStyle)
    ensures var (body, lines) := (BodyOf(w, footers, content, style), WithoutBlankEnd(TextLines(content)));
            && body.lines == lines
            && (style.rows.None? ==> body.kept == |lines| && body.elided == 0)
            && (style.rows.Some? && TotalRows(w, lines, style.width) <= RoomForBody(w, footers, style) ==>
                  body.kept == |lines| && body.elided == 0)
            && (style.rows.Some? && TotalRows(w, lines, style.width) > RoomForBody(w, footers, style) > 0 ==>
                  && body.kept < |lines| && body.elided == |lines| - body.kept
                  && TotalRows(w, lines[..body.kept], style.width) + 1 <= RoomForBody(w, footers, style)
                  && TotalRows(w, lines[..body.kept + 1], style.width) + 1 > RoomForBody(w, footers, style))
            && (style.rows.Some? && RoomForBody(w, footers, style) <= 0 < TotalRows(w, lines, style.width) ==>
                  body.kept == 0 && body.elided == 0)
  {
    if style.rows.Some? {
      BudgetIsRoom(w, footers, style);
      BodyFillsRoom(w, WithoutBlankEnd(TextLines(content)), style.width, RoomForBody(w, footers, style));
    }
  }

  /** Without a row nothing is kept and nothing is counted, if there is anything. */
  lemma NoBody(w: Widths, lines: seq<string>, width: nat)
    ensures TotalRows(w, lines, width) > 0 ==> BodyFor(w, lines, width, Some(0)) == Body(lines, 0, 0)
  {
  }
}
