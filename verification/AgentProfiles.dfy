/** The reader of the agent profile file: a subset of TOML, line by line, and the files it reads back. */
module AgentProfiles {
  import opened Outcomes
  import opened Strings

  datatype AgentProfile = AgentProfile(provider: string, model: string, reasoning: string, mode: string,
    args: seq<string>, required: bool, readOnly: bool)

  const DEFAULT := AgentProfile("", "", "", "", [], false, false)

  datatype Problem = ExpectedSection | InvalidName(name: string) | KeyOutsideSection | ExpectedKeyValue
    | UnknownKey(key: string) | ExpectedString | DanglingEscape | UnsupportedEscape(c: char)
    | ExpectedArray | UnterminatedString | ExpectedBool

  datatype Failure = Failure(line: nat, problem: Problem)

  // ---- quotes

  datatype Quote = Outside | Inside | Escaped

  /** The readers keep two flags. */
  function QuoteOf(inString: bool, escaped: bool): Quote {
    if escaped then Escaped else if inString then Inside else Outside
  }

  function Next(q: Quote, c: char): Quote {
    match q
    case Escaped => Inside
    case Inside => if c == '\\' then Escaped else if c == '"' then Outside else Inside
    case Outside => if c == '"' then Inside else Outside
  }

  function After(q: Quote, s: string): Quote
    decreases |s|
  {
    if |s| == 0 then q else After(Next(q, s[0]), s[1..])
  }

  /** The character does not occur outside quotes. */
  predicate Clear(q: Quote, s: string, c: char)
    decreases |s|
  {
    |s| == 0 || (!(q == Outside && s[0] == c) && Clear(Next(q, s[0]), s[1..], c))
  }

  lemma {:induction false} QuoteConcat(q: Quote, a: string, b: string, c: char)
    ensures After(q, a + b) == After(After(q, a), b)
    ensures Clear(q, a + b, c) <==> Clear(q, a, c) && Clear(After(q, a), b, c)
    decreases |a|
  {
    if |a| == 0 {
      assert a + b == b;
    } else {
      assert (a + b)[0] == a[0] && (a + b)[1..] == a[1..] + b;
      QuoteConcat(Next(q, a[0]), a[1..], b, c);
    }
  }

  lemma TakeOneMore(q: Quote, s: string, i: nat, c: char)
    requires i < |s|
    ensures After(q, s[..i + 1]) == Next(After(q, s[..i]), s[i])
    ensures Clear(q, s[..i + 1], c) <==> Clear(q, s[..i], c) && !(After(q, s[..i]) == Outside && s[i] == c)
  {
    assert s[..i + 1] == s[..i] + [s[i]];
    QuoteConcat(q, s[..i], [s[i]], c);
  }

  // ---- comments

  /** The line up to the first `#` outside quotes. */
  function Uncommented(q: Quote, line: string): string
    decreases |line|
  {
    if |line| == 0 || (q == Outside && line[0] == '#') then "" else [line[0]] + Uncommented(Next(q, line[0]), line[1..])
  }

  lemma {:induction false} UncommentedIs(q: Quote, text: string, rest: string)
    requires Clear(q, text, '#')
    requires |rest| > 0 ==> After(q, text) == Outside && rest[0] == '#'
    ensures Uncommented(q, text + rest) == text
    decreases |text|
  {
    if |text| == 0 {
      assert text + rest == rest;
    } else {
      assert (text + rest)[0] == text[0] && (text + rest)[1..] == text[1..] + rest;
      UncommentedIs(Next(q, text[0]), text[1..], rest);
    }
  }

  /** Keeps the line up to the first `#` outside quotes, and never cuts at a quoted one. */
  method StripTomlComment(line: string) returns (out: string)
    ensures out <= line && Clear(Outside, out, '#')
    ensures |out| < |line| ==> line[|out|] == '#' && After(Outside, out) == Outside
    ensures out == Uncommented(Outside, line)
  {
    var inString, escaped := false, false;
    out := "";
    var i := 0;
    while i < |line|
      invariant i <= |line| && out == line[..i] && (escaped ==> inString)
      invariant After(Outside, out) == QuoteOf(inString, escaped)
      invariant Clear(Outside, out, '#')
    {
      TakeOneMore(Outside, line, i, '#');
      var c := line[i];
      if escaped {
        out, escaped := out + [c], false;
      } else if inString && c == '\\' {
        out, escaped := out + [c], true;
      } else if c == '"' {
        inString := !inString;
        out := out + [c];
      } else if !inString && c == '#' {
        break;
      } else {
        out := out + [c];
      }
      i := i + 1;
    }
    assert line == out + line[i..];
    UncommentedIs(Outside, out, line[i..]);
  }

  // ---- strings

  function Prepend(text: string, r: Result<string, Problem>): Result<string, Problem> {
    if r.Ok? then Ok(text + r.value) else r
  }

  function Unescaped(value: string): Result<string, Problem>
    decreases |value|
  {
    if |value| == 0 then Ok("")
    else if value[0] != '\\' then Prepend([value[0]], Unescaped(value[1..]))
    else if |value| == 1 then Err(DanglingEscape)
    else if value[1] == '"' || value[1] == '\\' then Prepend([value[1]], Unescaped(value[2..]))
    else if value[1] == 'n' then Prepend("\n", Unescaped(value[2..]))
    else if value[1] == 't' then Prepend("\t", Unescaped(value[2..]))
    else Err(UnsupportedEscape(value[1]))
  }

  lemma PrependTwice(a: string, b: string, r: Result<string, Problem>)
    ensures Prepend(a, Prepend(b, r)) == Prepend(a + b, r)
  {
    if r.Ok? {
      assert a + (b + r.value) == a + b + r.value;
    }
  }

  lemma PrependNothing(r: Result<string, Problem>)
    ensures Prepend("", r) == r
  {
    if r.Ok? {
      assert "" + r.value == r.value;
    }
  }

  method UnescapeTomlString(value: string) returns (r: Result<string, Problem>)
    ensures r == Unescaped(value)
  {
    var out := "";
    var i := 0;
    assert value[0..] == value;
    PrependNothing(Unescaped(value));
    while i < |value|
      invariant i <= |value|
      invariant Unescaped(value) == Prepend(out, Unescaped(value[i..]))
    {
      var c := value[i];
      i := i + 1;
      assert value[i - 1..][1..] == value[i..];
      if c != '\\' {
        PrependTwice(out, [c], Unescaped(value[i..]));
        out := out + [c];
        continue;
      }
      if i == |value| {
        return Err(DanglingEscape);
      }
      var escaped := value[i];
      i := i + 1;
      assert value[i - 2..][2..] == value[i..];
      var plain;
      if escaped == '"' {
        plain := '"';
      } else if escaped == '\\' {
        plain := '\\';
      } else if escaped == 'n' {
        plain := '\n';
      } else if escaped == 't' {
        plain := '\t';
      } else {
        return Err(UnsupportedEscape(escaped));
      }
      PrependTwice(out, [plain], Unescaped(value[i..]));
      out := out + [plain];
    }
    assert out + "" == out;
    r := Ok(out);
  }

  /** A quoted string: quotes around it, and no escape but the four supported ones inside. */
  function StringValue(value: string): Result<string, Problem> {
    if |value| < 2 || value[0] != '"' || value[|value| - 1] != '"' then Err(ExpectedString)
    else Unescaped(value[1..|value| - 1])
  }

  method ParseTomlString(value: string) returns (r: Result<string, Problem>)
    ensures r == StringValue(value)
  {
    if !(|value| > 0 && value[0] == '"' && value[|value| - 1] == '"') || |value| < 2 {
      return Err(ExpectedString);
    }
    r := UnescapeTomlString(value[1..|value| - 1]);
  }

  // ---- arrays of strings

  /** The text split at the commas outside quotes. */
  function Fields(s: string): (fields: seq<string>)
    ensures |fields| > 0
    decreases |s|
  {
    if |s| == 0 then [""]
    else
      var front, c := s[..|s| - 1], s[|s| - 1];
      var fields := Fields(front);
      if After(Outside, front) == Outside && c == ',' then fields + [""]
      else fields[..|fields| - 1] + [fields[|fields| - 1] + [c]]
  }

  function Init<T>(s: seq<T>): seq<T>
    requires |s| > 0
  {
    s[..|s| - 1]
  }

  function Last<T>(s: seq<T>): T
    requires |s| > 0
  {
    s[|s| - 1]
  }

  /** The values of some fields, or the first problem among them. */
  function Values(fields: seq<string>): Result<seq<string>, Problem> {
    if |fields| == 0 then Ok([])
    else
      var init := Values(Init(fields));
      var last := StringValue(Trim(Last(fields)));
      if init.Err? then init else if last.Err? then Err(last.error) else Ok(init.value + [last.value])
  }

  /** One more comma may follow the last value, and a quote must not stay open. */
  function Items(inner: string): Result<seq<string>, Problem> {
    var fields := Fields(inner);
    if Values(Init(fields)).Err? then Values(Init(fields))
    else if After(Outside, inner) != Outside then Err(UnterminatedString)
    else if |Trim(Last(fields))| == 0 then Values(Init(fields))
    else Values(fields)
  }

  predicate InBrackets(s: string) {
    |s| >= 2 && s[0] == '[' && s[|s| - 1] == ']'
  }

  function ArrayValue(value: string): Result<seq<string>, Problem> {
    if !InBrackets(Trim(value)) then Err(ExpectedArray)
    else
      var inner := Trim(Trim(value)[1..|Trim(value)| - 1]);
      if |inner| == 0 then Ok([]) else Items(inner)
  }

  lemma {:induction false} FieldsStay(a: string, b: string)
    ensures |Fields(a)| <= |Fields(a + b)| && Init(Fields(a)) <= Init(Fields(a + b))
    decreases |b|
  {
    if |b| == 0 {
      assert a + b == a;
    } else {
      assert (a + b)[..|a + b| - 1] == a + b[..|b| - 1];
      FieldsStay(a, b[..|b| - 1]);
    }
  }

  lemma {:induction false} FirstProblemStays(a: seq<string>, b: seq<string>)
    requires a <= b && Values(a).Err?
    ensures Values(b) == Values(a)
    decreases |b|
  {
    if a != b {
      FirstProblemStays(a, Init(b));
    }
  }

  /** The scan stands behind `i` characters: complete fields with their values, and the field in progress. */
  ghost predicate Scanned(inner: string, i: nat, fields: seq<string>, current: string, items: seq<string>) {
    i <= |inner| && Fields(inner[..i]) == fields + [current] && Values(fields) == Ok(items)
  }

  lemma ScanCharacter(inner: string, i: nat, fields: seq<string>, current: string, items: seq<string>)
    requires i < |inner| && Scanned(inner, i, fields, current, items)
    requires !(After(Outside, inner[..i]) == Outside && inner[i] == ',')
    ensures Scanned(inner, i + 1, fields, current + [inner[i]], items)
  {
    assert inner[..i + 1][..i] == inner[..i];
    assert (fields + [current])[..|fields|] == fields;
  }

  lemma ScanComma(inner: string, i: nat, fields: seq<string>)
    requires i < |inner| && Fields(inner[..i]) == fields
    requires After(Outside, inner[..i]) == Outside && inner[i] == ','
    ensures Fields(inner[..i + 1]) == fields + [""]
  {
    assert inner[..i + 1][..i] == inner[..i];
  }

  lemma FieldsStayBehind(inner: string, i: nat, fields: seq<string>)
    requires i <= |inner| && Fields(inner[..i]) == fields + [""]
    ensures fields <= Init(Fields(inner))
  {
    assert inner == inner[..i] + inner[i..];
    FieldsStay(inner[..i], inner[i..]);
    assert Init(fields + [""]) == fields;
  }

  lemma OneMoreValue(fields: seq<string>, current: string, items: seq<string>)
    requires Values(fields) == Ok(items)
    ensures Values(fields + [current]) == var v := StringValue(Trim(current)); if v.Ok? then Ok(items + [v.value]) else Err(v.error)
  {
    assert Init(fields + [current]) == fields;
  }

  lemma ScanEnd(inner: string, fields: seq<string>, current: string, items: seq<string>)
    requires Scanned(inner, |inner|, fields, current, items)
    ensures Items(inner) == if After(Outside, inner) != Outside then Err(UnterminatedString)
                            else if |Trim(current)| == 0 then Ok(items)
                            else Values(fields + [current])
  {
    assert inner[..|inner|] == inner;
    assert Init(fields + [current]) == fields;
  }

  method ParseTomlStringArray(value: string) returns (r: Result<seq<string>, Problem>)
    ensures r == ArrayValue(value)
  {
    var trimmed := Trim(value);
    if !(|trimmed| > 0 && trimmed[0] == '[' && trimmed[|trimmed| - 1] == ']') {
      return Err(ExpectedArray);
    }
    assert InBrackets(trimmed);
    var inner := Trim(trimmed[1..|trimmed| - 1]);
    if |inner| == 0 {
      return Ok([]);
    }
    r := ParseItems(inner);
  }

  /** The loop of the array reader. */
  method ParseItems(inner: string) returns (r: Result<seq<string>, Problem>)
    ensures r == Items(inner)
  {
    var items: seq<string> := [];
    var current := "";
    var inString, escaped := false, false;
    ghost var fields: seq<string> := [];
    assert fields + [current] == [current];
    var i := 0;
    while i < |inner|
      invariant escaped ==> inString
      invariant Scanned(inner, i, fields, current, items)
      invariant After(Outside, inner[..i]) == QuoteOf(inString, escaped)
    {
      TakeOneMore(Outside, inner, i, ',');
      var c := inner[i];
      if !inString && c == ',' {
        ScanComma(inner, i, fields + [current]);
        OneMoreValue(fields, current, items);
        var item := ParseTomlString(Trim(current));
        if item.Err? {
          FieldsStayBehind(inner, i + 1, fields + [current]);
          FirstProblemStays(fields + [current], Init(Fields(inner)));
          return Err(item.error);
        }
        fields, items, current := fields + [current], items + [item.value], "";
      } else {
        ScanCharacter(inner, i, fields, current, items);
        current := current + [c];
        if escaped {
          escaped := false;
        } else if inString && c == '\\' {
          escaped := true;
        } else if c == '"' {
          inString := !inString;
        }
      }
      i := i + 1;
    }
    assert inner[..i] == inner;
    ScanEnd(inner, fields, current, items);
    if inString {
      return Err(UnterminatedString);
    }
    if |Trim(current)| > 0 {
      OneMoreValue(fields, current, items);
      var item := ParseTomlString(Trim(current));
      if item.Err? {
        return Err(item.error);
      }
      items := items + [item.value];
    }
    r := Ok(items);
  }

  function BoolValue(value: string): Result<bool, Problem> {
    if value == "true" then Ok(true) else if value == "false" then Ok(false) else Err(ExpectedBool)
  }

  // ---- lines and sections

  /** A key with its value. */
  datatype Setting = Provider(text: string) | Model(text: string) | Reasoning(text: string) | Mode(text: string)
    | Args(items: seq<string>) | Required(flag: bool) | ReadOnly(flag: bool)

  function KeyOf(setting: Setting): string {
    match setting
    case Provider(_) => "provider"
    case Model(_) => "model"
    case Reasoning(_) => "reasoning"
    case Mode(_) => "mode"
    case Args(_) => "args"
    case Required(_) => "required"
    case ReadOnly(_) => "read_only"
  }

  function With(p: AgentProfile, setting: Setting): AgentProfile {
    match setting
    case Provider(text) => p.(provider := text)
    case Model(text) => p.(model := text)
    case Reasoning(text) => p.(reasoning := text)
    case Mode(text) => p.(mode := text)
    case Args(items) => p.(args := items)
    case Required(flag) => p.(required := flag)
    case ReadOnly(flag) => p.(readOnly := flag)
  }

  function SettingOf(key: string, value: string): (r: Result<Setting, Problem>)
    ensures r.Ok? ==> KeyOf(r.value) == key
  {
    if key == "provider" then var v := StringValue(value); if v.Ok? then Ok(Provider(v.value)) else Err(v.error)
    else if key == "model" then var v := StringValue(value); if v.Ok? then Ok(Model(v.value)) else Err(v.error)
    else if key == "reasoning" then var v := StringValue(value); if v.Ok? then Ok(Reasoning(v.value)) else Err(v.error)
    else if key == "mode" then var v := StringValue(value); if v.Ok? then Ok(Mode(v.value)) else Err(v.error)
    else if key == "args" then var v := ArrayValue(value); if v.Ok? then Ok(Args(v.value)) else Err(v.error)
    else if key == "required" then var v := BoolValue(value); if v.Ok? then Ok(Required(v.value)) else Err(v.error)
    else if key == "read_only" then var v := BoolValue(value); if v.Ok? then Ok(ReadOnly(v.value)) else Err(v.error)
    else Err(UnknownKey(key))
  }

  function Assigned(p: AgentProfile, key: string, value: string): Result<AgentProfile, Problem> {
    var setting := SettingOf(key, value);
    if setting.Ok? then Ok(With(p, setting.value)) else Err(setting.error)
  }

  /** The order of different keys in a section does not matter, and of several values for one key the last stays. */
  lemma SettingsAreIndependent(p: AgentProfile, a: Setting, b: Setting)
    ensures if KeyOf(a) == KeyOf(b) then With(With(p, a), b) == With(p, b) else With(With(p, a), b) == With(With(p, b), a)
  {
    if KeyOf(a) == KeyOf(b) {
      assert |KeyOf(a)| == |KeyOf(b)| && KeyOf(a)[0] == KeyOf(b)[0] && KeyOf(a)[2] == KeyOf(b)[2];
    }
  }

  method AssignKey(p: AgentProfile, key: string, value: string) returns (r: Result<AgentProfile, Problem>)
    ensures r == Assigned(p, key, value)
  {
    if key == "provider" || key == "model" || key == "reasoning" || key == "mode" {
      var v := ParseTomlString(value);
      if v.Err? {
        return Err(v.error);
      }
      r := Ok(if key == "provider" then p.(provider := v.value)
              else if key == "model" then p.(model := v.value)
              else if key == "reasoning" then p.(reasoning := v.value)
              else p.(mode := v.value));
    } else if key == "args" {
      var v := ParseTomlStringArray(value);
      r := if v.Ok? then Ok(p.(args := v.value)) else Err(v.error);
    } else if key == "required" || key == "read_only" {
      var v := BoolValue(value);
      if v.Err? {
        return Err(v.error);
      }
      r := Ok(if key == "required" then p.(required := v.value) else p.(readOnly := v.value));
    } else {
      r := Err(UnknownKey(key));
    }
  }

  /** The profiles so far, and the section the next keys belong to: always one that exists. */
  datatype Sections = Sections(profiles: map<string, AgentProfile>, current: Option<string>) {
    predicate Valid() {
      current.Some? ==> current.value in profiles
    }
  }

  const NO_SECTIONS := Sections(map[], None)

  const SECTION := "[profiles."

  function Opened(st: Sections, name: string): Sections {
    Sections(if name in st.profiles then st.profiles else st.profiles[name := DEFAULT], Some(name))
  }

  predicate ValidName(name: string) {
    |name| > 0 && forall i :: 0 <= i < |name| ==> !IsWhitespace(name[i])
  }

  function SectionRead(st: Sections, line: string): Result<Sections, Problem> {
    if |line| <= |SECTION| || line[..|SECTION|] != SECTION || line[|line| - 1] != ']' then Err(ExpectedSection)
    else
      var name := line[|SECTION|..|line| - 1];
      if ValidName(name) then Ok(Opened(st, name)) else Err(InvalidName(name))
  }

  /** Sets one key of the profile whose section is open. */
  function KeyAssigned(st: Sections, key: string, value: string): Result<Sections, Problem>
    requires st.Valid() && st.current.Some?
  {
    var name := st.current.value;
    var p := Assigned(st.profiles[name], key, value);
    if p.Err? then Err(p.error) else Ok(st.(profiles := st.profiles[name := p.value]))
  }

  function KeyRead(st: Sections, line: string): Result<Sections, Problem>
    requires st.Valid()
  {
    var at := IndexOf(line, '=');
    if st.current.None? then Err(KeyOutsideSection)
    else if at == |line| then Err(ExpectedKeyValue)
    else KeyAssigned(st, Trim(line[..at]), Trim(line[at + 1..]))
  }

  /** What one line does, comment and surrounding white space removed; keys always find their profile. */
  function LineRead(st: Sections, line: string): (r: Result<Sections, Problem>)
    requires st.Valid() && |line| > 0
    ensures r.Ok? ==> r.value.Valid() && st.profiles.Keys <= r.value.profiles.Keys
  {
    if line[0] == '[' then SectionRead(st, line) else KeyRead(st, line)
  }

  function Meaning(raw: string): string {
    Trim(Uncommented(Outside, raw))
  }

  function AllRead(st: Sections, lines: seq<string>, number: nat): (r: Result<Sections, Failure>)
    requires st.Valid()
    ensures r.Ok? ==> r.value.Valid()
    decreases |lines|
  {
    if |lines| == 0 then Ok(st)
    else
      var line := Meaning(lines[0]);
      if |line| == 0 then AllRead(st, lines[1..], number + 1)
      else
        var r := LineRead(st, line);
        if r.Err? then Err(Failure(number, r.error)) else AllRead(r.value, lines[1..], number + 1)
  }

  function Parsed(text: string): Result<map<string, AgentProfile>, Failure> {
    var r := AllRead(NO_SECTIONS, TextLines(text), 1);
    if r.Ok? then Ok(r.value.profiles) else Err(r.error)
  }

  lemma NameIsBlankOrInvalid(name: string)
    ensures ValidName(name) <==> |Trim(name)| > 0 && forall i :: 0 <= i < |name| ==> !IsWhitespace(name[i])
  {
    if ValidName(name) {
      assert TrimStart(name) == name && TrimEnd(name) == name;
    } else if |name| == 0 {
      TrimBlank(name);
    }
  }

  method ParseAgentProfilesToml(text: string) returns (r: Result<map<string, AgentProfile>, Failure>)
    ensures r == Parsed(text)
  {
    var profiles: map<string, AgentProfile> := map[];
    var current: Option<string> := None;
    var lines := TextLines(text);
    assert lines[0..] == lines;
    for index := 0 to |lines|
      invariant Sections(profiles, current).Valid()
      invariant AllRead(NO_SECTIONS, lines, 1) == AllRead(Sections(profiles, current), lines[index..], index + 1)
    {
      assert lines[index..][1..] == lines[index + 1..];
      var number := index + 1;
      var stripped := StripTomlComment(lines[index]);
      var line := Trim(stripped);
      if |line| == 0 {
        continue;
      }
      if line[0] == '[' {
        if !(|SECTION| <= |line| && line[..|SECTION|] == SECTION && line[|line| - 1] == ']') {
          return Err(Failure(number, ExpectedSection));
        }
        assert line[|SECTION| - 1] == SECTION[|SECTION| - 1] == '.';
        var name := line[|SECTION|..|line| - 1];
        NameIsBlankOrInvalid(name);
        if |Trim(name)| == 0 || exists i :: 0 <= i < |name| && IsWhitespace(name[i]) {
          return Err(Failure(number, InvalidName(name)));
        }
        current := Some(name);
        if name !in profiles {
          profiles := profiles[name := DEFAULT];
        }
        continue;
      }
      if current.None? {
        return Err(Failure(number, KeyOutsideSection));
      }
      var at := IndexOf(line, '=');
      if at == |line| {
        return Err(Failure(number, ExpectedKeyValue));
      }
      var profile := AssignKey(profiles[current.value], Trim(line[..at]), Trim(line[at + 1..]));
      if profile.Err? {
        return Err(Failure(number, profile.error));
      }
      profiles := profiles[current.value := profile.value];
    }
    assert lines[|lines|..] == [];
    r := Ok(profiles);
  }
}
