/** Which files the agent profile reader reads back: every configuration, printed with the supported escapes
    and laid out with any white space and comments. */
module ProfileRoundTrip {
  import opened Outcomes
  import opened Strings
  import opened AgentProfiles

  // ---- printing

  function EscapeChar(c: char): string {
    if c == '"' then "\\\"" else if c == '\\' then "\\\\" else if c == '\n' then "\\n" else if c == '\t' then "\\t" else [c]
  }

  function Escape(s: string): string {
    if |s| == 0 then "" else EscapeChar(s[0]) + Escape(s[1..])
  }

  function Quoted(s: string): string {
    ['"'] + Escape(s) + ['"']
  }

  function Listed(items: seq<string>): string {
    if |items| == 0 then ""
    else if |items| == 1 then Quoted(items[0])
    else Listed(items[..|items| - 1]) + (", " + Quoted(items[|items| - 1]))
  }

  function Bool(b: bool): string {
    if b then "true" else "false"
  }

  function KeyLine(key: string, value: string): string {
    key + " " + ['='] + (" " + value)
  }

  function SectionLine(name: string): string {
    SECTION + name + "]"
  }

  function ProfileLines(p: AgentProfile): seq<string> {
    [KeyLine("provider", Quoted(p.provider))] + [KeyLine("model", Quoted(p.model))]
    + [KeyLine("reasoning", Quoted(p.reasoning))] + [KeyLine("mode", Quoted(p.mode))]
    + [KeyLine("args", "[" + Listed(p.args) + "]")]
    + [KeyLine("required", Bool(p.required))] + [KeyLine("read_only", Bool(p.readOnly))]
  }

  function ConfigLines(names: seq<string>, profiles: map<string, AgentProfile>): seq<string>
    requires forall i :: 0 <= i < |names| ==> names[i] in profiles
  {
    if |names| == 0 then []
    else
      var last := names[|names| - 1];
      ConfigLines(names[..|names| - 1], profiles) + ([SectionLine(last)] + ProfileLines(profiles[last]))
  }

  // ---- what escaping guarantees

  lemma {:induction false} UnescapeEscape(s: string)
    ensures Unescaped(Escape(s)) == Ok(s)
  {
    if |s| > 0 {
      UnescapeEscape(s[1..]);
      var e := EscapeChar(s[0]);
      assert Escape(s)[..|e|] == e && Escape(s)[|e|..] == Escape(s[1..]);
      assert s == [s[0]] + s[1..];
    }
  }

  lemma {:induction false} EscapeStaysInside(s: string, c: char)
    ensures After(Inside, Escape(s)) == Inside && Clear(Inside, Escape(s), c)
  {
    if |s| > 0 {
      EscapeStaysInside(s[1..], c);
      var e := EscapeChar(s[0]);
      assert After(Inside, e) == Inside && Clear(Inside, e, c) by {
        if |e| == 2 {
          assert e == [e[0]] + [e[1]];
          QuoteConcat(Inside, [e[0]], [e[1]], c);
        }
      }
      QuoteConcat(Inside, e, Escape(s[1..]), c);
    }
  }

  lemma QuotedIsShielded(s: string, c: char)
    requires c != '"'
    ensures After(Outside, Quoted(s)) == Outside && Clear(Outside, Quoted(s), c)
  {
    EscapeStaysInside(s, c);
    QuoteConcat(Outside, ['"'] + Escape(s), ['"'], c);
    QuoteConcat(Outside, ['"'], Escape(s), c);
  }

  lemma QuotedRoundTrip(s: string)
    ensures Solid(Quoted(s)) && StringValue(Quoted(s)) == Ok(s)
  {
    assert Quoted(s)[1..|Quoted(s)| - 1] == Escape(s);
    UnescapeEscape(s);
  }

  // ---- arrays

  lemma FieldsCharacter(a: string, c: char)
    requires !(After(Outside, a) == Outside && c == ',')
    ensures Fields(a + [c]) == Init(Fields(a)) + [Last(Fields(a)) + [c]]
    ensures After(Outside, a + [c]) == Next(After(Outside, a), c)
  {
    assert (a + [c])[..|a|] == a;
    QuoteConcat(Outside, a, [c], ',');
  }

  lemma {:induction false} FieldsAppend(a: string, b: string)
    requires Clear(After(Outside, a), b, ',')
    ensures Fields(a + b) == Init(Fields(a)) + [Last(Fields(a)) + b]
    decreases |b|
  {
    if |b| == 0 {
      assert a + b == a && Last(Fields(a)) + b == Last(Fields(a));
      InitAndLast(Fields(a), Init(Fields(a)), Last(Fields(a)));
    } else {
      var next := a + [b[0]];
      FieldsCharacter(a, b[0]);
      FieldsAppend(next, b[1..]);
      InitAndLast(Fields(next), Init(Fields(a)), Last(Fields(a)) + [b[0]]);
      ShiftHead(a, b);
      ShiftHead(Last(Fields(a)), b);
    }
  }

  lemma InitAndLast(s: seq<string>, front: seq<string>, last: string)
    requires |s| > 0
    ensures s == front + [last] <==> Init(s) == front && Last(s) == last
  {
    assert s == Init(s) + [Last(s)];
  }

  lemma ShiftHead(a: string, b: string)
    requires |b| > 0
    ensures a + [b[0]] + b[1..] == a + b
  {
  }

  lemma FieldsComma(a: string)
    requires After(Outside, a) == Outside
    ensures Fields(a + ",") == Fields(a) + [""]
  {
    assert (a + ",")[..|a|] == a;
  }

  lemma FieldsOfNext(a: string, item: string)
    requires After(Outside, a) == Outside
    ensures Fields(a + (", " + Quoted(item))) == Fields(a) + [" " + Quoted(item)]
    ensures After(Outside, a + (", " + Quoted(item))) == Outside
  {
    var rest := " " + Quoted(item);
    assert a + (", " + Quoted(item)) == a + "," + rest;
    QuotedIsShielded(item, ',');
    QuoteConcat(Outside, a, ",", ',');
    QuoteConcat(Outside, " ", Quoted(item), ',');
    QuoteConcat(Outside, a + ",", rest, ',');
    FieldsComma(a);
    FieldsAppend(a + ",", rest);
    assert Init(Fields(a) + [""]) == Fields(a) && "" + rest == rest;
  }

  lemma ValueOfField(before: string, item: string)
    requires Blank(before)
    ensures StringValue(Trim(before + Quoted(item))) == Ok(item) && |Trim(before + Quoted(item))| > 0
  {
    QuotedRoundTrip(item);
    TrimBetweenBlanks(before, Quoted(item), "");
    assert before + Quoted(item) + "" == before + Quoted(item);
  }

  lemma NextValue(fields: seq<string>, before: string, item: string, items: seq<string>)
    requires Blank(before) && Values(fields) == Ok(items)
    ensures Values(fields + [before + Quoted(item)]) == Ok(items + [item])
  {
    ValueOfField(before, item);
    assert Init(fields + [before + Quoted(item)]) == fields;
  }

  lemma {:induction false} ListedFields(items: seq<string>)
    requires |items| > 0
    ensures After(Outside, Listed(items)) == Outside
    ensures Values(Fields(Listed(items))) == Ok(items)
    ensures Values(Init(Fields(Listed(items)))) == Ok(Init(items))
    ensures |Trim(Last(Fields(Listed(items))))| > 0
    ensures Solid(Listed(items))
    decreases |items|
  {
    var last := Last(items);
    QuotedRoundTrip(last);
    assert items == Init(items) + [last];
    if |items| == 1 {
      QuotedIsShielded(last, ',');
      assert Fields("") == [""] && "" + Quoted(last) == Quoted(last);
      FieldsAppend("", Quoted(last));
      assert Init([""]) == [] && Fields(Quoted(last)) == [] + [Quoted(last)];
      NextValue([], "", last, []);
      ValueOfField("", last);
      assert Init([Quoted(last)]) == [];
    } else {
      var front := Listed(Init(items));
      ListedFields(Init(items));
      FieldsOfNext(front, last);
      NextValue(Fields(front), " ", last, Init(items));
      ValueOfField(" ", last);
      assert Init(Fields(front) + [" " + Quoted(last)]) == Fields(front);
    }
  }

  lemma BracketedValue(inner: string)
    requires |inner| > 0 ==> Solid(inner)
    ensures Solid("[" + inner + "]")
    ensures ArrayValue("[" + inner + "]") == if |inner| == 0 then Ok([]) else Items(inner)
  {
    var value := "[" + inner + "]";
    TrimSolid(value);
    assert value[1..|value| - 1] == inner;
    if |inner| > 0 {
      TrimSolid(inner);
    } else {
      TrimBlank(inner);
    }
  }

  /** Every list of strings, whatever commas, quotes, backslashes and number signs they hold, is read back. */
  lemma ArrayRoundTrip(items: seq<string>)
    ensures ArrayValue("[" + Listed(items) + "]") == Ok(items)
  {
    if |items| > 0 {
      ListedFields(items);
    }
    BracketedValue(Listed(items));
  }

  // ---- comments and white space

  /** White space around a line's content, and a comment behind it, if any. */
  datatype Layout = Layout(before: string, after: string, comment: string)

  predicate ValidLayout(l: Layout) {
    && Blank(l.before) && Blank(l.after) && (|l.comment| > 0 ==> l.comment[0] == '#')
    && OneLine(l.before) && OneLine(l.after) && OneLine(l.comment)
  }

  function LaidOut(content: string, l: Layout): string {
    l.before + content + l.after + l.comment
  }

  /** A content that comments and white space can surround. */
  predicate Shown(content: string) {
    Closed(content) && (|content| > 0 ==> Solid(content))
  }

  /** No `#` outside quotes, and every quote closed. */
  predicate Closed(s: string) {
    After(Outside, s) == Outside && Clear(Outside, s, '#')
  }

  lemma ClosedBetween(before: string, s: string, after: string)
    requires Closed(before) && Closed(s) && Closed(after)
    ensures Closed(before + s + after)
  {
    QuoteConcat(Outside, before, s, '#');
    QuoteConcat(Outside, before + s, after, '#');
  }

  lemma {:induction false} BlankIsClosed(s: string)
    requires Blank(s)
    ensures Closed(s)
  {
    if |s| > 0 {
      BlankIsClosed(s[1..]);
    }
  }

  /** Comments and surrounding white space are removed, and nothing else. */
  lemma LayoutIsRemoved(content: string, l: Layout)
    requires ValidLayout(l) && Shown(content)
    ensures Meaning(LaidOut(content, l)) == content
  {
    BlankIsClosed(l.before);
    BlankIsClosed(l.after);
    ClosedBetween(l.before, content, l.after);
    UncommentedIs(Outside, l.before + content + l.after, l.comment);
    if |content| > 0 {
      TrimBetweenBlanks(l.before, content, l.after);
    } else {
      TrimBlank(l.before + content + l.after);
    }
  }

  lemma {:induction false} UncommentedReturn(q: Quote, line: string)
    ensures Uncommented(q, line + "\r") == Uncommented(q, line) || Uncommented(q, line + "\r") == Uncommented(q, line) + "\r"
    decreases |line|
  {
    if |line| == 0 {
      assert line + "\r" == "\r";
    } else {
      assert (line + "\r")[1..] == line[1..] + "\r";
      UncommentedReturn(Next(q, line[0]), line[1..]);
    }
  }

  lemma ReturnHasNoMeaning(line: string)
    ensures Meaning(StripReturn(line)) == Meaning(line)
  {
    if StripReturn(line) != line {
      var front := StripReturn(line);
      assert line == front + "\r";
      UncommentedReturn(Outside, front);
      TrimTrailing(Uncommented(Outside, front), "\r");
    }
  }

  // ---- contents of a text

  /** What is left of some lines: the contents that are not empty. */
  function Contents(lines: seq<string>): seq<string>
    decreases |lines|
  {
    if |lines| == 0 then []
    else (if |Meaning(lines[0])| == 0 then [] else [Meaning(lines[0])]) + Contents(lines[1..])
  }

  function ContentsRead(st: Sections, contents: seq<string>): Option<Sections>
    requires st.Valid() && forall i :: 0 <= i < |contents| ==> |contents[i]| > 0
    ensures ContentsRead(st, contents).Some? ==> ContentsRead(st, contents).value.Valid()
    decreases |contents|
  {
    if |contents| == 0 then Some(st)
    else if LineRead(st, contents[0]).Err? then None
    else ContentsRead(LineRead(st, contents[0]).value, contents[1..])
  }

  lemma {:induction false} ContentsAreNotEmpty(lines: seq<string>)
    ensures forall i :: 0 <= i < |Contents(lines)| ==> |Contents(lines)[i]| > 0
    decreases |lines|
  {
    if |lines| > 0 {
      ContentsAreNotEmpty(lines[1..]);
    }
  }

  /** The sections a file gives depend on its contents only, not on its layout, comments and empty lines. */
  lemma {:induction false} OnlyContentsMatter(st: Sections, lines: seq<string>, number: nat)
    requires st.Valid() && forall i :: 0 <= i < |Contents(lines)| ==> |Contents(lines)[i]| > 0
    ensures AllRead(st, lines, number).Ok? <==> ContentsRead(st, Contents(lines)).Some?
    ensures AllRead(st, lines, number).Ok? ==> AllRead(st, lines, number).value == ContentsRead(st, Contents(lines)).value
    decreases |lines|
  {
    if |lines| > 0 {
      var line := Meaning(lines[0]);
      ContentsAreNotEmpty(lines[1..]);
      if |line| == 0 {
        assert Contents(lines) == Contents(lines[1..]);
        OnlyContentsMatter(st, lines[1..], number + 1);
      } else {
        assert Contents(lines)[0] == line && Contents(lines)[1..] == Contents(lines[1..]);
        if LineRead(st, line).Ok? {
          OnlyContentsMatter(LineRead(st, line).value, lines[1..], number + 1);
        }
      }
    }
  }

  lemma {:induction false} ContentsOfText(lines: seq<string>)
    requires forall i :: 0 <= i < |lines| ==> OneLine(lines[i])
    ensures Contents(TextLines(Terminated(lines))) == Contents(lines)
    decreases |lines|
  {
    if |lines| > 0 {
      ContentsOfText(lines[1..]);
      var text := Terminated(lines);
      IndexOfIs(lines[0], '\n', Terminated(lines[1..]));
      assert text[..|lines[0]|] == lines[0] && text[|lines[0]| + 1..] == Terminated(lines[1..]);
      var read := [StripReturn(lines[0])] + TextLines(Terminated(lines[1..]));
      assert TextLines(text) == read;
      assert read[1..] == TextLines(Terminated(lines[1..]));
      ReturnHasNoMeaning(lines[0]);
    }
  }

  // ---- sections and keys

  predicate KeyName(key: string) {
    |key| > 0 && forall i :: 0 <= i < |key| ==> 'a' <= key[i] <= 'z' || key[i] == '_'
  }

  lemma KeyAndValue(key: string, value: string)
    requires KeyName(key) && Solid(value)
    ensures var at := IndexOf(KeyLine(key, value), '=');
            at < |KeyLine(key, value)| && Trim(KeyLine(key, value)[..at]) == key && Trim(KeyLine(key, value)[at + 1..]) == value
  {
    var line := KeyLine(key, value);
    IndexOfIs(key + " ", '=', " " + value);
    assert line[..|key| + 1] == key + " " && line[|key| + 2..] == " " + value;
    TrimBetweenBlanks("", key, " ");
    TrimBetweenBlanks(" ", value, "");
    assert "" + key + " " == key + " " && " " + value + "" == " " + value;
  }

  /** Some profiles, where the section in progress holds `p`. */
  function At(profiles: map<string, AgentProfile>, name: string, p: AgentProfile): (st: Sections)
    ensures st.Valid()
  {
    Sections(profiles[name := p], Some(name))
  }

  lemma KeyLineRead(profiles: map<string, AgentProfile>, name: string, p: AgentProfile, key: string, value: string, next: AgentProfile)
    requires KeyName(key) && Solid(value) && Assigned(p, key, value) == Ok(next)
    ensures LineRead(At(profiles, name, p), KeyLine(key, value)) == Ok(At(profiles, name, next))
  {
    KeyAndValue(key, value);
    assert KeyLine(key, value)[0] == key[0];
    KeyAssignedAt(profiles, name, p, key, value, next);
  }

  lemma KeyAssignedAt(profiles: map<string, AgentProfile>, name: string, p: AgentProfile, key: string, value: string, next: AgentProfile)
    requires Assigned(p, key, value) == Ok(next)
    ensures KeyAssigned(At(profiles, name, p), key, value) == Ok(At(profiles, name, next))
  {
    AssignedTwice(profiles, name, p, next);
  }

  lemma AssignedTwice(profiles: map<string, AgentProfile>, name: string, p: AgentProfile, next: AgentProfile)
    ensures profiles[name := p][name := next] == profiles[name := next]
  {
  }

  /** A section name that a file can hold: the reader takes it, and it neither hides in nor opens a comment. */
  predicate SafeName(name: string) {
    ValidName(name) && Closed(name)
  }

  lemma ShownBetween(before: string, s: string, after: string)
    requires PlainText(before) && Closed(s) && PlainText(after)
    requires Solid(before + s + after)
    ensures Shown(before + s + after)
  {
    PlainIsClosed(before);
    PlainIsClosed(after);
    ClosedBetween(before, s, after);
  }

  predicate PlainText(s: string) {
    forall i :: 0 <= i < |s| ==> s[i] != '"' && s[i] != '#' && s[i] != '\n'
  }

  lemma {:induction false} PlainIsClosed(s: string)
    requires PlainText(s)
    ensures Closed(s)
  {
    if |s| > 0 {
      PlainIsClosed(s[1..]);
    }
  }

  lemma SectionIsShown(name: string)
    requires SafeName(name)
    ensures Shown(SectionLine(name)) && OneLine(SectionLine(name))
  {
    ShownBetween(SECTION, name, "]");
  }

  lemma {:induction false} EscapeIsOneLine(s: string)
    ensures OneLine(Escape(s))
  {
    if |s| > 0 {
      EscapeIsOneLine(s[1..]);
    }
  }

  lemma QuotedIsOneLine(s: string)
    ensures OneLine(Quoted(s)) && Closed(Quoted(s))
  {
    EscapeIsOneLine(s);
    QuotedIsShielded(s, '#');
  }

  lemma {:induction false} ListedIsOneLine(items: seq<string>)
    ensures OneLine(Listed(items)) && Closed(Listed(items))
    decreases |items|
  {
    if |items| > 0 {
      QuotedIsOneLine(Last(items));
    }
    if |items| > 1 {
      ListedIsOneLine(Init(items));
      var front := Listed(Init(items));
      PlainIsClosed(", ");
      ClosedBetween(front, ", ", Quoted(Last(items)));
      assert front + ", " + Quoted(Last(items)) == Listed(items);
    }
  }

  /** A line that can be laid out, and does not run over a newline. */
  predicate Printed(line: string) {
    |line| > 0 && Shown(line) && OneLine(line)
  }

  lemma KeyLineIsPrinted(key: string, value: string)
    requires KeyName(key) && Solid(value) && OneLine(value) && Closed(value)
    ensures Printed(KeyLine(key, value))
  {
    var before := key + " " + ['='] + " ";
    assert KeyLine(key, value) == before + value + "";
    ShownBetween(before, value, "");
  }

  lemma ArrayIsShown(items: seq<string>)
    ensures Solid("[" + Listed(items) + "]") && OneLine("[" + Listed(items) + "]") && Closed("[" + Listed(items) + "]")
  {
    ListedIsOneLine(items);
    ShownBetween("[", Listed(items), "]");
  }

  // ---- runs of the reader

  /** A printed line takes the reader from one state to the next. */
  ghost predicate Goes(states: seq<Sections>, contents: seq<string>, i: nat)
    requires i < |contents| && |states| == |contents| + 1
  {
    Printed(contents[i]) && states[i].Valid() && LineRead(states[i], contents[i]) == Ok(states[i + 1])
  }

  ghost predicate Run(states: seq<Sections>, contents: seq<string>) {
    |states| == |contents| + 1 && forall i :: 0 <= i < |contents| ==> Goes(states, contents, i)
  }

  ghost predicate Reads(st: Sections, contents: seq<string>, end: Sections) {
    exists states :: Run(states, contents) && states[0] == st && states[|contents|] == end
  }

  lemma ReadsNothing(st: Sections)
    ensures Reads(st, [], st)
  {
    assert Run([st], []);
  }

  lemma ReadsOne(st: Sections, line: string, next: Sections)
    requires st.Valid() && Printed(line) && LineRead(st, line) == Ok(next)
    ensures Reads(st, [line], next)
  {
    assert Goes([st, next], [line], 0);
    assert Run([st, next], [line]);
  }

  lemma RunsMeet(before: seq<Sections>, a: seq<string>, after: seq<Sections>, b: seq<string>)
    requires Run(before, a) && Run(after, b) && before[|a|] == after[0]
    ensures Run(before + after[1..], a + b)
  {
    var states, contents := before + after[1..], a + b;
    forall i | 0 <= i < |contents|
      ensures Goes(states, contents, i)
    {
      if i < |a| {
        assert Goes(before, a, i);
        assert states[i] == before[i] && states[i + 1] == before[i + 1] && contents[i] == a[i];
      } else {
        var j := i - |a|;
        assert Goes(after, b, j);
        assert states[i] == after[j] && states[i + 1] == after[j + 1] && contents[i] == b[j];
      }
    }
  }

  lemma ReadsBoth(st: Sections, a: seq<string>, middle: Sections, b: seq<string>, end: Sections)
    requires Reads(st, a, middle) && Reads(middle, b, end)
    ensures Reads(st, a + b, end)
  {
    var before :| Run(before, a) && before[0] == st && before[|a|] == middle;
    var after :| Run(after, b) && after[0] == middle && after[|b|] == end;
    RunsMeet(before, a, after, b);
    assert (before + after[1..])[|a + b|] == end;
  }

  lemma RunTail(states: seq<Sections>, contents: seq<string>)
    requires Run(states, contents) && |contents| > 0
    ensures Run(states[1..], contents[1..])
  {
    forall i | 0 <= i < |contents| - 1
      ensures Goes(states[1..], contents[1..], i)
    {
      assert Goes(states, contents, i + 1);
    }
  }

  lemma RunIsPrinted(states: seq<Sections>, contents: seq<string>)
    requires Run(states, contents)
    ensures forall i :: 0 <= i < |contents| ==> Printed(contents[i]) && |contents[i]| > 0
  {
    forall i | 0 <= i < |contents|
      ensures Printed(contents[i])
    {
      assert Goes(states, contents, i);
    }
  }

  lemma {:induction false} RunGivesContents(states: seq<Sections>, contents: seq<string>)
    requires Run(states, contents) && states[0].Valid()
    requires forall i :: 0 <= i < |contents| ==> |contents[i]| > 0
    ensures ContentsRead(states[0], contents) == Some(states[|contents|])
    decreases |contents|
  {
    if |contents| > 0 {
      assert Goes(states, contents, 0);
      RunTail(states, contents);
      RunGivesContents(states[1..], contents[1..]);
    }
  }

  // ---- each line of a printed profile

  lemma ReadsKey(profiles: map<string, AgentProfile>, name: string, p: AgentProfile, key: string, value: string, next: AgentProfile)
    requires KeyName(key) && Solid(value) && OneLine(value) && Closed(value)
    requires Assigned(p, key, value) == Ok(next)
    ensures Reads(At(profiles, name, p), [KeyLine(key, value)], At(profiles, name, next))
  {
    KeyLineIsPrinted(key, value);
    KeyLineRead(profiles, name, p, key, value, next);
    ReadsOne(At(profiles, name, p), KeyLine(key, value), At(profiles, name, next));
  }

  lemma ReadsString(profiles: map<string, AgentProfile>, name: string, p: AgentProfile, key: string, s: string, next: AgentProfile)
    requires KeyName(key) && (StringValue(Quoted(s)) == Ok(s) ==> Assigned(p, key, Quoted(s)) == Ok(next))
    ensures Reads(At(profiles, name, p), [KeyLine(key, Quoted(s))], At(profiles, name, next))
  {
    QuotedRoundTrip(s);
    QuotedIsOneLine(s);
    ReadsKey(profiles, name, p, key, Quoted(s), next);
  }

  lemma ReadsProvider(profiles: map<string, AgentProfile>, name: string, p: AgentProfile, s: string)
    ensures Reads(At(profiles, name, p), [KeyLine("provider", Quoted(s))], At(profiles, name, p.(provider := s)))
  {
    ReadsString(profiles, name, p, "provider", s, p.(provider := s));
  }

  lemma ReadsModel(profiles: map<string, AgentProfile>, name: string, p: AgentProfile, s: string)
    ensures Reads(At(profiles, name, p), [KeyLine("model", Quoted(s))], At(profiles, name, p.(model := s)))
  {
    ReadsString(profiles, name, p, "model", s, p.(model := s));
  }

  lemma ReadsReasoning(profiles: map<string, AgentProfile>, name: string, p: AgentProfile, s: string)
    ensures Reads(At(profiles, name, p), [KeyLine("reasoning", Quoted(s))], At(profiles, name, p.(reasoning := s)))
  {
    ReadsString(profiles, name, p, "reasoning", s, p.(reasoning := s));
  }

  lemma ReadsMode(profiles: map<string, AgentProfile>, name: string, p: AgentProfile, s: string)
    ensures Reads(At(profiles, name, p), [KeyLine("mode", Quoted(s))], At(profiles, name, p.(mode := s)))
  {
    ReadsString(profiles, name, p, "mode", s, p.(mode := s));
  }

  lemma ReadsArgsValue(profiles: map<string, AgentProfile>, name: string, p: AgentProfile, value: string, items: seq<string>)
    requires Solid(value) && OneLine(value) && Closed(value) && ArrayValue(value) == Ok(items)
    ensures Reads(At(profiles, name, p), [KeyLine("args", value)], At(profiles, name, p.(args := items)))
  {
    ReadsKey(profiles, name, p, "args", value, p.(args := items));
  }

  lemma ReadsArgs(profiles: map<string, AgentProfile>, name: string, p: AgentProfile, items: seq<string>)
    ensures Reads(At(profiles, name, p), [KeyLine("args", "[" + Listed(items) + "]")], At(profiles, name, p.(args := items)))
  {
    ArrayRoundTrip(items);
    ArrayIsShown(items);
    ReadsArgsValue(profiles, name, p, "[" + Listed(items) + "]", items);
  }

  lemma ReadsBool(profiles: map<string, AgentProfile>, name: string, p: AgentProfile, key: string, b: bool, next: AgentProfile)
    requires KeyName(key) && Assigned(p, key, Bool(b)) == Ok(next)
    ensures Reads(At(profiles, name, p), [KeyLine(key, Bool(b))], At(profiles, name, next))
  {
    PlainIsClosed(Bool(b));
    ReadsKey(profiles, name, p, key, Bool(b), next);
  }

  lemma ReadsRequired(profiles: map<string, AgentProfile>, name: string, p: AgentProfile, b: bool)
    ensures Reads(At(profiles, name, p), [KeyLine("required", Bool(b))], At(profiles, name, p.(required := b)))
  {
    ReadsBool(profiles, name, p, "required", b, p.(required := b));
  }

  lemma ReadsReadOnly(profiles: map<string, AgentProfile>, name: string, p: AgentProfile, b: bool)
    ensures Reads(At(profiles, name, p), [KeyLine("read_only", Bool(b))], At(profiles, name, p.(readOnly := b)))
  {
    ReadsBool(profiles, name, p, "read_only", b, p.(readOnly := b));
  }

  lemma SectionLineRead(st: Sections, name: string)
    requires st.Valid() && ValidName(name)
    ensures LineRead(st, SectionLine(name)) == Ok(Opened(st, name))
  {
    var line := SectionLine(name);
    assert line[..|SECTION|] == SECTION && line[|SECTION|..|line| - 1] == name;
  }

  lemma {:induction false} WholeLineIsClear(q: Quote, line: string)
    requires Uncommented(q, line) == line
    ensures Clear(q, line, '#')
    decreases |line|
  {
    if |line| > 0 {
      assert Uncommented(q, line)[1..] == Uncommented(Next(q, line[0]), line[1..]);
      WholeLineIsClear(Next(q, line[0]), line[1..]);
    }
  }

  lemma {:induction false} UncommentedIsPrefix(q: Quote, line: string)
    ensures Uncommented(q, line) <= line
    ensures |line| > 0 && line[0] != '#' ==> |Uncommented(q, line)| > 0
    decreases |line|
  {
    if |line| > 0 {
      UncommentedIsPrefix(Next(q, line[0]), line[1..]);
    }
  }

  /** A printed profile fills the section it stands in, whatever was in it. */
  lemma ProfileReads(profiles: map<string, AgentProfile>, name: string, p0: AgentProfile, p: AgentProfile)
    ensures Reads(At(profiles, name, p0), ProfileLines(p), At(profiles, name, p))
  {
    var p1 := p0.(provider := p.provider);
    var p2 := p1.(model := p.model);
    var p3 := p2.(reasoning := p.reasoning);
    var p4 := p3.(mode := p.mode);
    var p5 := p4.(args := p.args);
    var p6 := p5.(required := p.required);
    assert p6.(readOnly := p.readOnly) == p;
    var start := At(profiles, name, p0);
    ReadsProvider(profiles, name, p0, p.provider);
    var lines := [KeyLine("provider", Quoted(p.provider))];
    ReadsModel(profiles, name, p1, p.model);
    ReadsBoth(start, lines, At(profiles, name, p1), [KeyLine("model", Quoted(p.model))], At(profiles, name, p2));
    lines := lines + [KeyLine("model", Quoted(p.model))];
    ReadsReasoning(profiles, name, p2, p.reasoning);
    ReadsBoth(start, lines, At(profiles, name, p2), [KeyLine("reasoning", Quoted(p.reasoning))], At(profiles, name, p3));
    lines := lines + [KeyLine("reasoning", Quoted(p.reasoning))];
    ReadsMode(profiles, name, p3, p.mode);
    ReadsBoth(start, lines, At(profiles, name, p3), [KeyLine("mode", Quoted(p.mode))], At(profiles, name, p4));
    lines := lines + [KeyLine("mode", Quoted(p.mode))];
    ReadsArgs(profiles, name, p4, p.args);
    ReadsBoth(start, lines, At(profiles, name, p4), [KeyLine("args", "[" + Listed(p.args) + "]")], At(profiles, name, p5));
    lines := lines + [KeyLine("args", "[" + Listed(p.args) + "]")];
    ReadsRequired(profiles, name, p5, p.required);
    ReadsBoth(start, lines, At(profiles, name, p5), [KeyLine("required", Bool(p.required))], At(profiles, name, p6));
    lines := lines + [KeyLine("required", Bool(p.required))];
    ReadsReadOnly(profiles, name, p6, p.readOnly);
    ReadsBoth(start, lines, At(profiles, name, p6), [KeyLine("read_only", Bool(p.readOnly))], At(profiles, name, p));
  }

  // ---- whole files

  predicate Nameable(names: seq<string>, profiles: map<string, AgentProfile>) {
    forall i :: 0 <= i < |names| ==> names[i] in profiles && SafeName(names[i])
  }

  lemma SectionReads(st: Sections, name: string, p: AgentProfile)
    requires st.Valid() && SafeName(name)
    ensures Reads(st, [SectionLine(name)] + ProfileLines(p), At(st.profiles, name, p))
  {
    var p0 := if name in st.profiles then st.profiles[name] else DEFAULT;
    SectionLineRead(st, name);
    SectionIsShown(name);
    assert Opened(st, name) == At(st.profiles, name, p0);
    ReadsOne(st, SectionLine(name), At(st.profiles, name, p0));
    ProfileReads(st.profiles, name, p0, p);
    ReadsBoth(st, [SectionLine(name)], At(st.profiles, name, p0), ProfileLines(p), At(st.profiles, name, p));
  }

  function Restricted(names: seq<string>, profiles: map<string, AgentProfile>): map<string, AgentProfile> {
    map name | name in profiles && name in names :: profiles[name]
  }

  lemma {:induction false} ConfigReads(names: seq<string>, profiles: map<string, AgentProfile>) returns (end: Sections)
    requires Nameable(names, profiles)
    ensures end.Valid() && end.profiles == Restricted(names, profiles)
    ensures Reads(NO_SECTIONS, ConfigLines(names, profiles), end)
    decreases |names|
  {
    if |names| == 0 {
      end := NO_SECTIONS;
      ReadsNothing(NO_SECTIONS);
    } else {
      var front, last := Init(names), Last(names);
      var middle := ConfigReads(front, profiles);
      SectionReads(middle, last, profiles[last]);
      end := At(middle.profiles, last, profiles[last]);
      ReadsBoth(NO_SECTIONS, ConfigLines(front, profiles), middle, [SectionLine(last)] + ProfileLines(profiles[last]), end);
      OneMoreName(names, profiles);
    }
  }

  lemma OneMoreName(names: seq<string>, profiles: map<string, AgentProfile>)
    requires |names| > 0 && Last(names) in profiles
    ensures Restricted(names, profiles) == Restricted(Init(names), profiles)[Last(names) := profiles[Last(names)]]
  {
    assert names == Init(names) + [Last(names)];
  }

  /** Printed profiles, in any order, are read as they are, and every line can be laid out. */
  lemma ConfigContents(names: seq<string>, profiles: map<string, AgentProfile>) returns (end: Sections)
    requires Nameable(names, profiles) && forall name :: name in profiles ==> name in names
    ensures forall i :: 0 <= i < |ConfigLines(names, profiles)| ==>
      Printed(ConfigLines(names, profiles)[i]) && |ConfigLines(names, profiles)[i]| > 0
    ensures end.profiles == profiles && ContentsRead(NO_SECTIONS, ConfigLines(names, profiles)) == Some(end)
  {
    end := ConfigReads(names, profiles);
    assert Restricted(names, profiles) == profiles;
    var contents := ConfigLines(names, profiles);
    var states :| Run(states, contents) && states[0] == NO_SECTIONS && states[|contents|] == end;
    RunIsPrinted(states, contents);
    RunGivesContents(states, contents);
  }

  /** A configuration is read back from every file with its contents, in any order of sections, however the
      lines are indented, commented, spaced out by empty and comment lines, or ended. */
  lemma ConfigRoundTrip(names: seq<string>, profiles: map<string, AgentProfile>, raw: seq<string>)
    requires Nameable(names, profiles) && forall name :: name in profiles ==> name in names
    requires forall i :: 0 <= i < |raw| ==> OneLine(raw[i])
    requires Contents(raw) == ConfigLines(names, profiles)
    ensures Parsed(Terminated(raw)) == Ok(profiles)
  {
    var end := ConfigContents(names, profiles);
    ContentsOfText(raw);
    ContentsAreNotEmpty(raw);
    OnlyContentsMatter(NO_SECTIONS, TextLines(Terminated(raw)), 1);
  }

  function AllLaidOut(contents: seq<string>, layouts: seq<Layout>): seq<string>
    requires |layouts| == |contents|
    decreases |contents|
  {
    if |contents| == 0 then [] else [LaidOut(contents[0], layouts[0])] + AllLaidOut(contents[1..], layouts[1..])
  }

  lemma LaidOutIsOneLine(content: string, l: Layout)
    requires ValidLayout(l) && OneLine(content)
    ensures OneLine(LaidOut(content, l))
  {
  }

  ghost predicate CanLayOut(contents: seq<string>, layouts: seq<Layout>) {
    |layouts| == |contents| && forall i :: 0 <= i < |contents| ==> ValidLayout(layouts[i]) && Printed(contents[i])
  }

  lemma {:induction false} ContentsOfLaidOut(contents: seq<string>, layouts: seq<Layout>)
    requires CanLayOut(contents, layouts)
    ensures Contents(AllLaidOut(contents, layouts)) == contents
    ensures forall i :: 0 <= i < |AllLaidOut(contents, layouts)| ==> OneLine(AllLaidOut(contents, layouts)[i])
    decreases |contents|
  {
    if |contents| > 0 {
      LayoutIsRemoved(contents[0], layouts[0]);
      LaidOutIsOneLine(contents[0], layouts[0]);
      assert CanLayOut(contents[1..], layouts[1..]);
      ContentsOfLaidOut(contents[1..], layouts[1..]);
      assert AllLaidOut(contents, layouts)[1..] == AllLaidOut(contents[1..], layouts[1..]);
      assert contents == [contents[0]] + contents[1..];
    }
  }

  /** In particular from the printed configuration, with any white space and any comment on every line. */
  lemma PrintedRoundTrip(names: seq<string>, profiles: map<string, AgentProfile>, layouts: seq<Layout>)
    requires Nameable(names, profiles) && forall name :: name in profiles ==> name in names
    requires |layouts| == |ConfigLines(names, profiles)| && forall i :: 0 <= i < |layouts| ==> ValidLayout(layouts[i])
    ensures Parsed(Terminated(AllLaidOut(ConfigLines(names, profiles), layouts))) == Ok(profiles)
  {
    var contents := ConfigLines(names, profiles);
    assert CanLayOut(contents, layouts) by {
      var end := ConfigContents(names, profiles);
    }
    ContentsOfLaidOut(contents, layouts);
    ConfigRoundTrip(names, profiles, AllLaidOut(contents, layouts));
  }

  /** What is read from one line that is not empty. */
  lemma OneLineRead(st: Sections, line: string, next: Sections)
    requires st.Valid() && |Meaning(line)| > 0
    ensures AllRead(st, [line], 1) == Ok(next) <==> LineRead(st, Meaning(line)) == Ok(next)
  {
    var lines := [line];
    assert |lines[1..]| == 0;
  }

  lemma LineMeans(line: string)
    requires Solid(line) && line[0] != '#'
    ensures if Clear(Outside, line, '#') then Meaning(line) == line else 0 < |Meaning(line)| < |line|
    ensures |Meaning(line)| > 0 && Meaning(line)[0] == line[0]
  {
    UncommentedIsPrefix(Outside, line);
    TrimKeepsFirst(Uncommented(Outside, line));
    if Clear(Outside, line, '#') {
      assert line + "" == line;
      UncommentedIs(Outside, line, "");
      TrimSolid(line);
    } else if Uncommented(Outside, line) == line {
      WholeLineIsClear(Outside, line);
    }
  }

  lemma ClearBetween(before: string, s: string, after: string)
    requires Closed(before) && PlainText(after)
    ensures Clear(Outside, before + s + after, '#') <==> Clear(Outside, s, '#')
  {
    QuoteConcat(Outside, before, s, '#');
    QuoteConcat(Outside, before + s, after, '#');
    PlainIsClear(After(Outside, before + s), after);
  }

  lemma {:induction false} PlainIsClear(q: Quote, s: string)
    requires PlainText(s)
    ensures Clear(q, s, '#')
    decreases |s|
  {
    if |s| > 0 {
      PlainIsClear(Next(q, s[0]), s[1..]);
    }
  }

  lemma LineBetweenMeans(before: string, s: string, after: string, line: string)
    requires PlainText(before) && PlainText(after) && line == before + s + after && Solid(line) && line[0] != '#'
    ensures if Clear(Outside, s, '#') then Meaning(line) == line else 0 < |Meaning(line)| < |line|
    ensures |Meaning(line)| > 0 && Meaning(line)[0] == line[0]
  {
    PlainIsClosed(before);
    ClearBetween(before, s, after);
    LineMeans(line);
  }

  /** A section line opens the section it names exactly when the name is not empty, holds no white space
      and no `#` outside quotes. */
  lemma SectionNameRoundTrip(st: Sections, name: string)
    requires st.Valid()
    ensures AllRead(st, [SectionLine(name)], 1) == Ok(Opened(st, name)) <==> ValidName(name) && Clear(Outside, name, '#')
  {
    LineBetweenMeans(SECTION, name, "]", SectionLine(name));
    OneLineRead(st, SectionLine(name), Opened(st, name));
    if Clear(Outside, name, '#') {
      SectionLineOpens(st, name);
    } else {
      ShorterLineOpensOther(st, Meaning(SectionLine(name)), name);
    }
  }

  lemma SectionLineOpens(st: Sections, name: string)
    requires st.Valid()
    ensures |SectionLine(name)| > 0 && (LineRead(st, SectionLine(name)) == Ok(Opened(st, name)) <==> ValidName(name))
  {
    NameIn(SectionLine(name), name);
  }

  lemma ShorterLineOpensOther(st: Sections, line: string, name: string)
    requires st.Valid() && 0 < |line| < |SectionLine(name)| && line[0] == '['
    ensures LineRead(st, line) != Ok(Opened(st, name))
  {
    if SectionRead(st, line).Ok? {
      assert SectionRead(st, line).value.current == Some(line[|SECTION|..|line| - 1]);
    }
  }

  lemma NameIn(line: string, name: string)
    requires line == SectionLine(name)
    ensures line[..|SECTION|] == SECTION && line[|SECTION|..|line| - 1] == name && line[|line| - 1] == ']'
  {
  }
}
