/** Quoting for the POSIX shell, and the shell's own reading of it: IEEE Std 1003.1-2017, Shell Command
    Language, sections 2.2.1 (backslash), 2.2.2 (single quotes), 2.2.3 (double quotes) and 2.3 (words). */
module ShellQuoting {
  import opened Collections
  import opened Outcomes
  import opened Graphs
  import opened SortedIds
  import opened Strings

  // ---- the shell's reading

  datatype Token = Word(text: string) | Newline

  datatype Mode = Plain | PlainEscape | Single | Double | DoubleEscape

  /** A reader in the middle of a text: the tokens behind it and the word in progress, if any. It refuses a
      character that would be an operator, an expansion, a pattern or a comment. */
  datatype Shell = Refused | Reading(mode: Mode, word: Option<string>, tokens: seq<Token>)

  predicate IsAlphanumeric(c: char) {
    'a' <= c <= 'z' || 'A' <= c <= 'Z' || '0' <= c <= '9'
  }

  /** Characters that stand for themselves outside quotes, whatever surrounds them. */
  predicate Ordinary(c: char) {
    IsAlphanumeric(c) || c == '/' || c == '.' || c == '_' || c == '-' || c == ':' || c == ',' || c == '='
  }

  predicate EscapedInDouble(c: char) {
    c == '$' || c == '`' || c == '"' || c == '\\'
  }

  function Current(word: Option<string>): string {
    if word.Some? then word.value else ""
  }

  function Ended(word: Option<string>): seq<Token> {
    if word.Some? then [Word(word.value)] else []
  }

  function Add(sh: Shell, mode: Mode, text: string): Shell
    requires sh.Reading?
  {
    Reading(mode, Some(Current(sh.word) + text), sh.tokens)
  }

  function Step(sh: Shell, c: char): Shell {
    if sh.Refused? then Refused
    else match sh.mode
      case Single =>
        if c == '\'' then sh.(mode := Plain) else Add(sh, Single, [c])
      case Double =>
        if c == '"' then sh.(mode := Plain)
        else if c == '$' || c == '`' then Refused
        else if c == '\\' then sh.(mode := DoubleEscape)
        else Add(sh, Double, [c])
      case DoubleEscape =>
        if c == '\n' then sh.(mode := Double)
        else Add(sh, Double, if EscapedInDouble(c) then [c] else ['\\', c])
      case PlainEscape =>
        if c == '\n' then sh.(mode := Plain) else Add(sh, Plain, [c])
      case Plain =>
        if c == ' ' || c == '\t' then Reading(Plain, None, sh.tokens + Ended(sh.word))
        else if c == '\n' then Reading(Plain, None, sh.tokens + Ended(sh.word) + [Newline])
        else if c == '\'' then Add(sh, Single, "")
        else if c == '"' then Add(sh, Double, "")
        else if c == '\\' then sh.(mode := PlainEscape)
        else if Ordinary(c) then Add(sh, Plain, [c])
        else Refused
  }

  function Run(sh: Shell, s: string): Shell
    decreases |s|
  {
    if |s| == 0 then sh else Run(Step(sh, s[0]), s[1..])
  }

  const START := Reading(Plain, None, [])

  /** A text as words and line ends, quotes removed; nothing, if something was refused or left open. */
  function Tokens(s: string): Option<seq<Token>> {
    var sh := Run(START, s);
    if sh.Reading? && sh.mode == Plain then Some(sh.tokens + Ended(sh.word)) else None
  }

  lemma {:induction false} RunConcat(sh: Shell, a: string, b: string)
    ensures Run(sh, a + b) == Run(Run(sh, a), b)
    decreases |a|
  {
    if |a| == 0 {
      assert a + b == b;
    } else {
      assert (a + b)[0] == a[0] && (a + b)[1..] == a[1..] + b;
      RunConcat(Step(sh, a[0]), a[1..], b);
    }
  }

  // ---- quoting

  /** Replaces every single quote by the given text. */
  function ReplaceQuotes(s: string, sub: string): string {
    if |s| == 0 then "" else (if s[0] == '\'' then sub else [s[0]]) + ReplaceQuotes(s[1..], sub)
  }

  const BACKSLASHED := "'\\''"
  const DOUBLE_QUOTED := "'\"'\"'"

  predicate AgentSafe(c: char) {
    IsAlphanumeric(c) || c == '/' || c == '.' || c == '_' || c == '-' || c == ':' || c == '='
  }

  predicate CliSafe(c: char) {
    IsAlphanumeric(c) || c == '/' || c == '.' || c == '_' || c == '-' || c == ':' || c == ',' || c == '='
  }

  predicate AllSafe(s: string, safe: char -> bool) {
    forall i :: 0 <= i < |s| ==> safe(s[i])
  }

  function ShellQuote(value: string): string {
    if AllSafe(value, AgentSafe) then value else "'" + ReplaceQuotes(value, BACKSLASHED) + "'"
  }

  function ShellQuoteArg(value: string): string {
    if |value| == 0 then "''"
    else if AllSafe(value, CliSafe) then value
    else "'" + ReplaceQuotes(value, DOUBLE_QUOTED) + "'"
  }

  // ---- what the shell makes of quoted text

  /** Inside single quotes, the text adds one single quote to the word and stays inside. */
  ghost predicate AddsQuote(sub: string) {
    forall word, tokens :: Run(Reading(Single, Some(word), tokens), sub) == Reading(Single, Some(word + "'"), tokens)
  }

  lemma BackslashedAddsQuote()
    ensures AddsQuote(BACKSLASHED)
  {
    forall word, tokens
      ensures Run(Reading(Single, Some(word), tokens), BACKSLASHED) == Reading(Single, Some(word + "'"), tokens)
    {
      var sh := Reading(Single, Some(word), tokens);
      RunConcat(sh, "'\\", "''");
      RunConcat(sh, "'", "\\");
      RunConcat(Run(sh, "'\\"), "'", "'");
      assert word + "'" + "" == word + "'";
    }
  }

  lemma DoubleQuotedAddsQuote()
    ensures AddsQuote(DOUBLE_QUOTED)
  {
    forall word, tokens
      ensures Run(Reading(Single, Some(word), tokens), DOUBLE_QUOTED) == Reading(Single, Some(word + "'"), tokens)
    {
      var sh := Reading(Single, Some(word), tokens);
      RunConcat(sh, "'\"'\"", "'");
      RunConcat(sh, "'\"", "'\"");
      RunConcat(sh, "'", "\"");
      RunConcat(Run(sh, "'\""), "'", "\"");
      assert word + "" == word && word + "'" + "" == word + "'";
    }
  }

  lemma {:induction false} RunReplaced(value: string, sub: string, word: string, tokens: seq<Token>)
    requires AddsQuote(sub)
    ensures Run(Reading(Single, Some(word), tokens), ReplaceQuotes(value, sub)) == Reading(Single, Some(word + value), tokens)
    decreases |value|
  {
    var sh := Reading(Single, Some(word), tokens);
    if |value| == 0 {
      assert word + value == word;
    } else {
      var first := if value[0] == '\'' then sub else [value[0]];
      RunConcat(sh, first, ReplaceQuotes(value[1..], sub));
      assert Run(sh, first) == Reading(Single, Some(word + [value[0]]), tokens);
      RunReplaced(value[1..], sub, word + [value[0]], tokens);
      assert word + [value[0]] + value[1..] == word + value;
    }
  }

  lemma {:induction false} RunOrdinary(value: string, word: Option<string>, tokens: seq<Token>)
    requires forall i :: 0 <= i < |value| ==> Ordinary(value[i])
    requires |value| > 0 || word.Some?
    ensures Run(Reading(Plain, word, tokens), value) == Reading(Plain, Some(Current(word) + value), tokens)
    decreases |value|
  {
    if |value| == 0 {
      assert Current(word) + value == Current(word);
    } else {
      RunOrdinary(value[1..], Some(Current(word) + [value[0]]), tokens);
      assert Current(word) + [value[0]] + value[1..] == Current(word) + value;
    }
  }

  lemma RunQuoted(value: string, sub: string, word: Option<string>, tokens: seq<Token>)
    requires AddsQuote(sub)
    ensures Run(Reading(Plain, word, tokens), "'" + ReplaceQuotes(value, sub) + "'")
         == Reading(Plain, Some(Current(word) + value), tokens)
  {
    var sh := Reading(Plain, word, tokens);
    RunConcat(sh, "'" + ReplaceQuotes(value, sub), "'");
    RunConcat(sh, "'", ReplaceQuotes(value, sub));
    assert Current(word) + "" == Current(word);
    RunReplaced(value, sub, Current(word), tokens);
  }

  /** A quoted text adds exactly the text to the word in progress, wherever it stands. */
  lemma RunShellQuote(value: string, word: Option<string>, tokens: seq<Token>)
    ensures Run(Reading(Plain, word, tokens), ShellQuote(value))
         == Reading(Plain, if |value| == 0 then word else Some(Current(word) + value), tokens)
  {
    if !AllSafe(value, AgentSafe) {
      BackslashedAddsQuote();
      RunQuoted(value, BACKSLASHED, word, tokens);
    } else if |value| > 0 {
      RunOrdinary(value, word, tokens);
    }
  }

  lemma RunShellQuoteArg(value: string, word: Option<string>, tokens: seq<Token>)
    ensures Run(Reading(Plain, word, tokens), ShellQuoteArg(value)) == Reading(Plain, Some(Current(word) + value), tokens)
  {
    if |value| > 0 && AllSafe(value, CliSafe) {
      RunOrdinary(value, word, tokens);
    } else {
      DoubleQuotedAddsQuote();
      RunQuoted(value, DOUBLE_QUOTED, word, tokens);
      assert |value| == 0 ==> "'" + ReplaceQuotes(value, DOUBLE_QUOTED) + "'" == "''";
    }
  }

  // ---- command lines

  /** Quoted arguments, joined by spaces. */
  function JoinQuoted(args: seq<string>, quote: string -> string): string {
    if |args| == 0 then "" else JoinQuoted(args[..|args| - 1], quote) + (if |args| == 1 then "" else " ") + quote(args[|args| - 1])
  }

  function Words(args: seq<string>): seq<Token> {
    seq(|args|, i requires 0 <= i < |args| => Word(args[i]))
  }

  function NonEmpty(args: seq<string>): seq<string> {
    if |args| == 0 then [] else NonEmpty(args[..|args| - 1]) + if |args[|args| - 1]| == 0 then [] else [args[|args| - 1]]
  }

  /** Where a reader stands behind some arguments, if the last of them left it in a word or not. */
  ghost predicate HasRead(s: string, args: seq<string>) {
    var sh := Run(START, s);
    sh.Reading? && sh.mode == Plain && sh.tokens + Ended(sh.word) == Words(args)
  }

  lemma RunSpace(s: string, args: seq<string>)
    requires HasRead(s, args)
    ensures Run(START, s + " ") == Reading(Plain, None, Words(args))
  {
    RunConcat(START, s, " ");
  }

  /** The shell reads back exactly the arguments, whatever they contain. */
  lemma {:induction false} ShellQuoteArgRoundTrip(args: seq<string>)
    ensures Tokens(JoinQuoted(args, ShellQuoteArg)) == Some(Words(args))
    decreases |args|
  {
    if |args| == 0 {
      assert Words(args) == [];
      assert START.tokens + Ended(START.word) == [];
    } else {
      var front, last := args[..|args| - 1], args[|args| - 1];
      var s := JoinQuoted(front, ShellQuoteArg);
      ShellQuoteArgRoundTrip(front);
      RunSpace(s, front);
      var before := s + if |args| == 1 then "" else " ";
      assert Words(args) == Words(front) + [Word(last)];
      assert |args| == 1 ==> before == "" && Words(front) == [];
      RunConcat(START, before, ShellQuoteArg(last));
      RunShellQuoteArg(last, None, Words(front));
      assert "" + last == last;
    }
  }

  /** The other quoter returns nothing for an empty argument, so the shell reads back the non-empty ones. */
  lemma {:induction false} ShellQuoteReadsNonEmpty(args: seq<string>)
    ensures Tokens(JoinQuoted(args, ShellQuote)) == Some(Words(NonEmpty(args)))
    decreases |args|
  {
    if |args| == 0 {
      assert Words(args) == [];
      assert START.tokens + Ended(START.word) == [];
    } else {
      var front, last := args[..|args| - 1], args[|args| - 1];
      var s := JoinQuoted(front, ShellQuote);
      var done := Words(NonEmpty(front));
      ShellQuoteReadsNonEmpty(front);
      RunSpace(s, NonEmpty(front));
      var before := s + if |args| == 1 then "" else " ";
      assert Words(NonEmpty(args)) == done + if |last| == 0 then [] else [Word(last)];
      assert |args| == 1 ==> before == "" && done == [];
      RunConcat(START, before, ShellQuote(last));
      RunShellQuote(last, None, done);
      assert "" + last == last;
    }
  }

  /** So it gives back the argument list exactly when no argument is empty. */
  lemma ShellQuoteRoundTrip(args: seq<string>)
    ensures Tokens(JoinQuoted(args, ShellQuote)) == Some(Words(args)) <==> forall i :: 0 <= i < |args| ==> |args[i]| > 0
  {
    ShellQuoteReadsNonEmpty(args);
    NonEmptyIsAll(args);
    assert |Words(args)| == |args| && |Words(NonEmpty(args))| == |NonEmpty(args)|;
  }

  lemma {:induction false} NonEmptyIsAll(args: seq<string>)
    ensures |NonEmpty(args)| <= |args|
    ensures |NonEmpty(args)| == |args| <==> forall i :: 0 <= i < |args| ==> |args[i]| > 0
    ensures |NonEmpty(args)| == |args| ==> NonEmpty(args) == args
    decreases |args|
  {
    if |args| > 0 {
      NonEmptyIsAll(args[..|args| - 1]);
    }
  }

  // ---- the environment file

  predicate IsValidEnvKey(key: string) {
    && key != "" && (key[0] == '_' || 'a' <= key[0] <= 'z' || 'A' <= key[0] <= 'Z')
    && forall i :: 1 <= i < |key| ==> key[i] == '_' || IsAlphanumeric(key[i])
  }

  /** A name of the shell: IEEE Std 1003.1-2017, Base Definitions, section 3.235. */
  predicate IsName(s: string) {
    && |s| > 0 && !('0' <= s[0] <= '9')
    && forall c :: c in s ==> 'a' <= c <= 'z' || 'A' <= c <= 'Z' || '0' <= c <= '9' || c == '_'
  }

  /** The program accepts exactly the names. */
  lemma ValidKeysAreNames(key: string)
    ensures IsValidEnvKey(key) <==> IsName(key)
  {
    if IsName(key) {
      assert key[0] in key;
      assert forall i :: 0 <= i < |key| ==> key[i] in key;
    }
  }

  datatype Entry = Entry(key: string, value: string)

  const EXPORT := "export"

  /** One line of the file, for an entry the shell can name. */
  function EntryLine(e: Entry): string {
    if IsValidEnvKey(e.key) then EXPORT + " " + e.key + "=" + ShellQuote(e.value) + "\n" else ""
  }

  function EntriesText(entries: seq<Entry>): string {
    if |entries| == 0 then "" else EntryLine(entries[0]) + EntriesText(entries[1..])
  }

  /** What sourcing the text assigns: nothing, unless every command is `export NAME=value`
      with a name the shell accepts. */
  function Sourced(tokens: seq<Token>): Option<map<string, string>> {
    if |tokens| == 0 then Some(map[])
    else if |tokens| < 3 || tokens[0] != Word(EXPORT) || !tokens[1].Word? || tokens[2] != Newline then None
    else
      var assignment := tokens[1].text;
      var at := IndexOf(assignment, '=');
      var later := Sourced(tokens[3..]);
      if at == |assignment| || !IsName(assignment[..at]) || later.None? then None
      else if assignment[..at] in later.value then later
      else Some(later.value[assignment[..at] := assignment[at + 1..]])
  }

  /** The entries with valid names; the last one, where a name is repeated. */
  function ValidEntries(entries: seq<Entry>): map<string, string> {
    if |entries| == 0 then map[]
    else
      var rest := ValidEntries(entries[1..]);
      if !IsName(entries[0].key) || entries[0].key in rest then rest
      else rest[entries[0].key := entries[0].value]
  }

  function EntryTokens(e: Entry): seq<Token> {
    if IsValidEnvKey(e.key) then [Word(EXPORT), Word(e.key + "=" + e.value), Newline] else []
  }

  lemma RunAssignment(e: Entry, tokens: seq<Token>)
    requires IsValidEnvKey(e.key)
    ensures Run(Reading(Plain, None, tokens), e.key + "=" + ShellQuote(e.value))
         == Reading(Plain, Some(e.key + "=" + e.value), tokens)
  {
    var name := e.key + "=";
    RunConcat(Reading(Plain, None, tokens), name, ShellQuote(e.value));
    RunOrdinary(name, None, tokens);
    assert "" + name == name;
    RunShellQuote(e.value, Some(name), tokens);
    assert |e.value| == 0 ==> name + e.value == name;
  }

  lemma RunExport(tokens: seq<Token>)
    ensures Run(Reading(Plain, None, tokens), EXPORT + " ") == Reading(Plain, None, tokens + [Word(EXPORT)])
  {
    RunConcat(Reading(Plain, None, tokens), EXPORT, " ");
    RunOrdinary(EXPORT, None, tokens);
    assert "" + EXPORT == EXPORT;
  }

  /** A line adds its tokens. */
  lemma RunEntryLine(e: Entry, tokens: seq<Token>)
    ensures Run(Reading(Plain, None, tokens), EntryLine(e)) == Reading(Plain, None, tokens + EntryTokens(e))
  {
    var sh := Reading(Plain, None, tokens);
    if IsValidEnvKey(e.key) {
      var assignment := e.key + "=" + ShellQuote(e.value);
      assert EntryLine(e) == EXPORT + " " + assignment + "\n";
      RunConcat(sh, EXPORT + " " + assignment, "\n");
      RunConcat(sh, EXPORT + " ", assignment);
      RunExport(tokens);
      RunAssignment(e, tokens + [Word(EXPORT)]);
      assert tokens + [Word(EXPORT)] + [Word(e.key + "=" + e.value)] + [Newline] == tokens + EntryTokens(e);
    } else {
      assert tokens + [] == tokens;
    }
  }

  lemma SourcedLine(e: Entry, tokens: seq<Token>)
    requires IsValidEnvKey(e.key) && Sourced(tokens).Some?
    ensures Sourced(EntryTokens(e) + tokens).Some?
    ensures Sourced(EntryTokens(e) + tokens).value
         == if e.key in Sourced(tokens).value then Sourced(tokens).value else Sourced(tokens).value[e.key := e.value]
  {
    var all := EntryTokens(e) + tokens;
    var assignment := e.key + "=" + e.value;
    assert all[0] == Word(EXPORT) && all[1] == Word(assignment) && all[2] == Newline && all[3..] == tokens;
    IndexOfIs(e.key, '=', e.value);
    assert assignment[..|e.key|] == e.key && assignment[|e.key| + 1..] == e.value;
  }

  function EntriesTokens(entries: seq<Entry>): seq<Token> {
    if |entries| == 0 then []
    else EntryTokens(entries[0]) + EntriesTokens(entries[1..])
  }

  lemma {:induction false} RunEntries(entries: seq<Entry>, tokens: seq<Token>)
    ensures Run(Reading(Plain, None, tokens), EntriesText(entries)) == Reading(Plain, None, tokens + EntriesTokens(entries))
    decreases |entries|
  {
    if |entries| == 0 {
      assert tokens + EntriesTokens(entries) == tokens;
    } else {
      var line := EntryTokens(entries[0]);
      RunConcat(Reading(Plain, None, tokens), EntryLine(entries[0]), EntriesText(entries[1..]));
      RunEntryLine(entries[0], tokens);
      RunEntries(entries[1..], tokens + line);
      ConcatAssoc(tokens, line, EntriesTokens(entries[1..]));
    }
  }

  lemma {:induction false} SourcedEntries(entries: seq<Entry>)
    ensures Sourced(EntriesTokens(entries)) == Some(ValidEntries(entries))
    decreases |entries|
  {
    if |entries| > 0 {
      ValidKeysAreNames(entries[0].key);
      SourcedEntries(entries[1..]);
      if IsValidEnvKey(entries[0].key) {
        SourcedLine(entries[0], EntriesTokens(entries[1..]));
      } else {
        assert EntriesTokens(entries) == EntriesTokens(entries[1..]);
      }
    }
  }

  /** Sourcing the file assigns exactly the entries with valid names, empty values included. */
  lemma EnvironmentRoundTrip(entries: seq<Entry>)
    ensures Tokens(EntriesText(entries)).Some?
    ensures Sourced(Tokens(EntriesText(entries)).value) == Some(ValidEntries(entries))
  {
    RunEntries(entries, []);
    assert [] + EntriesTokens(entries) == EntriesTokens(entries);
    assert EntriesTokens(entries) + [] == EntriesTokens(entries);
    SourcedEntries(entries);
  }

  /** The file for the process environment overlaid with the job's: sourced, it gives the merged
      environment restricted to valid names. */
  method EnvFileText(processEnv: map<string, string>, jobEnv: map<string, string>) returns (text: string)
    ensures Tokens(text).Some?
    ensures Sourced(Tokens(text).value)
         == Some(map key | key in processEnv + jobEnv && IsName(key) :: (processEnv + jobEnv)[key])
  {
    var env := processEnv + jobEnv;
    var keys := InOrder(env.Keys);
    text := "";
    ghost var entries: seq<Entry> := [];
    for i := 0 to |keys|
      invariant |entries| == i && forall j :: 0 <= j < i ==> keys[j] in env && entries[j] == Entry(keys[j], env[keys[j]])
      invariant text == EntriesText(entries)
    {
      var key := keys[i];
      assert key in Members(keys);
      EntriesTextAppend(entries, Entry(key, env[key]));
      if IsValidEnvKey(key) {
        RegroupPushed(text, EXPORT, " ", key, "=", ShellQuote(env[key]), "\n");
        text := text + EXPORT + " ";
        text := text + key;
        text := text + "=";
        text := text + ShellQuote(env[key]);
        text := text + "\n";
      } else {
        assert text + EntryLine(Entry(key, env[key])) == text;
      }
      entries := entries + [Entry(key, env[key])];
    }
    EnvironmentRoundTrip(entries);
    AllEntries(env, keys, entries);
  }

  lemma {:induction false} EntriesTextAppend(entries: seq<Entry>, e: Entry)
    ensures EntriesText(entries + [e]) == EntriesText(entries) + EntryLine(e)
  {
    if |entries| == 0 {
      assert entries + [e] == [e] && [e][1..] == entries;
      assert EntryLine(e) + "" == "" + EntryLine(e);
    } else {
      assert (entries + [e])[1..] == entries[1..] + [e];
      EntriesTextAppend(entries[1..], e);
      ConcatAssoc(EntryLine(entries[0]), EntriesText(entries[1..]), EntryLine(e));
    }
  }

  lemma RegroupPushed(text: string, a: string, b: string, c: string, d: string, e: string, f: string)
    ensures text + a + b + c + d + e + f == text + (a + b + c + d + e + f)
  {
    ConcatAssoc(text, a, b);
    ConcatAssoc(text, a + b, c);
    ConcatAssoc(text, a + b + c, d);
    ConcatAssoc(text, a + b + c + d, e);
    ConcatAssoc(text, a + b + c + d + e, f);
  }

  lemma {:induction false} ValidEntriesAreTheirs(env: map<string, string>, entries: seq<Entry>)
    requires forall j :: 0 <= j < |entries| ==> entries[j].key in env && entries[j].value == env[entries[j].key]
    ensures forall key :: key in ValidEntries(entries) ==> key in env && IsName(key) && ValidEntries(entries)[key] == env[key]
    ensures forall j :: 0 <= j < |entries| && IsName(entries[j].key) ==> entries[j].key in ValidEntries(entries)
  {
    if |entries| > 0 {
      ValidEntriesAreTheirs(env, entries[1..]);
    }
  }

  lemma AllEntries(env: map<string, string>, keys: seq<string>, entries: seq<Entry>)
    requires Members(keys) == env.Keys && |entries| == |keys|
    requires forall j :: 0 <= j < |keys| ==> keys[j] in env && entries[j] == Entry(keys[j], env[keys[j]])
    ensures ValidEntries(entries) == map key | key in env && IsName(key) :: env[key]
  {
    ValidEntriesAreTheirs(env, entries);
    forall key | key in env && IsName(key)
      ensures key in ValidEntries(entries)
    {
      assert key in Members(keys);
      var j :| 0 <= j < |keys| && keys[j] == key;
      assert entries[j].key == key;
    }
  }
}
