/** What the agent profile reader reports: the first line that cannot be read, its number, and why. */
module ProfileErrors {
  import opened AgentProfiles
  import opened Outcomes
  import opened Strings

  /** What a line makes of the sections: nothing, if its content is empty. */
  function Effect(st: Sections, raw: string): (r: Result<Sections, Problem>)
    requires st.Valid()
    ensures r.Ok? ==> r.value.Valid()
  {
    if |Meaning(raw)| == 0 then Ok(st) else LineRead(st, Meaning(raw))
  }

  /** The sections after the first k lines, if those can be read. */
  function After(lines: seq<string>, k: nat): (r: Option<Sections>)
    requires k <= |lines|
    ensures r.Some? ==> r.value.Valid()
  {
    if k == 0 then Some(NO_SECTIONS)
    else
      var before := After(lines, k - 1);
      if before.None? then None
      else
        var r := Effect(before.value, lines[k - 1]);
        if r.Ok? then Some(r.value) else None
  }

  /** The k-th line, counted from 0, is the first that cannot be read. */
  ghost predicate FailsAt(lines: seq<string>, k: nat, problem: Problem) {
    k < |lines| && After(lines, k).Some? && Effect(After(lines, k).value, lines[k]) == Err(problem)
  }

  lemma ReadOne(st: Sections, lines: seq<string>, number: nat)
    requires st.Valid() && |lines| > 0
    ensures AllRead(st, lines, number)
         == match Effect(st, lines[0])
            case Ok(next) => AllRead(next, lines[1..], number + 1)
            case Err(problem) => Err(Failure(number, problem))
  {
  }

  /** From the k-th line on. */
  lemma {:induction false} ReadFrom(lines: seq<string>, k: nat)
    requires k <= |lines| && After(lines, k).Some?
    ensures AllRead(After(lines, k).value, lines[k..], k + 1) == AllRead(NO_SECTIONS, lines, 1)
  {
    if k == 0 {
      assert lines[0..] == lines;
    } else {
      ReadFrom(lines, k - 1);
      ReadOne(After(lines, k - 1).value, lines[k - 1..], k);
      assert lines[k - 1..][1..] == lines[k..] && lines[k - 1..][0] == lines[k - 1];
    }
  }

  lemma FailureIsReported(text: string, k: nat, problem: Problem)
    requires FailsAt(TextLines(text), k, problem)
    ensures Parsed(text) == Err(Failure(k + 1, problem))
  {
    var lines := TextLines(text);
    ReadFrom(lines, k);
    ReadOne(After(lines, k).value, lines[k..], k + 1);
    assert lines[k..][0] == lines[k];
  }

  lemma {:induction false} FirstFailure(lines: seq<string>, n: nat) returns (at: nat)
    requires n <= |lines| && After(lines, n).None?
    ensures at < n && After(lines, at).Some? && Effect(After(lines, at).value, lines[at]).Err?
  {
    if After(lines, n - 1).None? {
      at := FirstFailure(lines, n - 1);
    } else {
      at := n - 1;
    }
  }

  lemma ReadThrough(lines: seq<string>)
    requires After(lines, |lines|).Some?
    ensures AllRead(NO_SECTIONS, lines, 1).Ok?
  {
    ReadFrom(lines, |lines|);
    assert |lines[|lines|..]| == 0;
  }

  /** A failure is reported exactly for the first line that cannot be read, under its number counted from 1. */
  lemma FailureIsFirst(text: string, failure: Failure)
    ensures Parsed(text) == Err(failure) <==> failure.line > 0 && FailsAt(TextLines(text), failure.line - 1, failure.problem)
  {
    var lines := TextLines(text);
    if failure.line > 0 && FailsAt(lines, failure.line - 1, failure.problem) {
      FailureIsReported(text, failure.line - 1, failure.problem);
    }
    if Parsed(text).Err? {
      if After(lines, |lines|).Some? {
        ReadThrough(lines);
      } else {
        var at := FirstFailure(lines, |lines|);
        FailureIsReported(text, at, Effect(After(lines, at).value, lines[at]).error);
      }
    }
  }

  // ---- lines that cannot be read

  /** A line that opens a bracket must be a section with a name. */
  lemma SectionLines(st: Sections, line: string)
    requires st.Valid() && |line| > 0 && line[0] == '['
    ensures LineRead(st, line) == Err(ExpectedSection) <==> !(exists name :: line == "[profiles." + name + "]")
    ensures forall name :: line == "[profiles." + name + "]" && !ValidName(name) ==> LineRead(st, line) == Err(InvalidName(name))
  {
    var prefix := "[profiles.";
    if |line| > |prefix| && line[..|prefix|] == prefix && line[|line| - 1] == ']' {
      var name := line[|prefix|..|line| - 1];
      assert line == prefix + name + "]";
    }
    forall name | line == prefix + name + "]"
      ensures |line| > |prefix| && line[..|prefix|] == prefix && line[|line| - 1] == ']' && line[|prefix|..|line| - 1] == name
    {
    }
  }

  /** Another line must be a key and a value behind a section. */
  lemma KeyLines(st: Sections, line: string)
    requires st.Valid() && |line| > 0 && line[0] != '['
    ensures st.current.None? ==> LineRead(st, line) == Err(KeyOutsideSection)
    ensures st.current.Some? && '=' !in line ==> LineRead(st, line) == Err(ExpectedKeyValue)
  {
    var at := IndexOf(line, '=');
    assert at < |line| ==> line[at] in line;
  }

  /** It is read from what is before the first equals sign and what is behind it. */
  lemma KeyAndValue(st: Sections, key: string, value: string)
    requires st.Valid() && st.current.Some? && '=' !in key && (|key| > 0 ==> key[0] != '[')
    ensures LineRead(st, key + ['='] + value) == KeyAssigned(st, Trim(key), Trim(value))
  {
    var line := key + ['='] + value;
    assert forall i :: 0 <= i < |key| ==> key[i] in key;
    IndexOfIs(key, '=', value);
    assert line[..|key|] == key && line[|key| + 1..] == value;
  }

  const KEYS: set<string> := {"provider", "model", "reasoning", "mode", "args", "required", "read_only"}

  /** And its key must be one of seven. */
  lemma UnknownKeys(st: Sections, key: string, value: string)
    requires st.Valid() && st.current.Some? && '=' !in key && (|key| > 0 ==> key[0] != '[')
    requires Trim(key) !in KEYS
    ensures LineRead(st, key + ['='] + value) == Err(UnknownKey(Trim(key)))
  {
    KeyAndValue(st, key, value);
  }

  /** Flags are `true` or `false`. */
  lemma OtherFlags(st: Sections, key: string, value: string)
    requires st.Valid() && st.current.Some? && '=' !in key && (|key| > 0 ==> key[0] != '[')
    requires Trim(key) == "required" || Trim(key) == "read_only"
    ensures LineRead(st, key + ['='] + value) == Err(ExpectedBool) <==> Trim(value) != "true" && Trim(value) != "false"
  {
    KeyAndValue(st, key, value);
    FlagValue(st.profiles[st.current.value], Trim(key), Trim(value));
  }

  lemma FlagValue(p: AgentProfile, key: string, value: string)
    requires key == "required" || key == "read_only"
    ensures Assigned(p, key, value) == Err(ExpectedBool) <==> value != "true" && value != "false"
  {
  }
}
