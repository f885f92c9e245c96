/** White space (the Unicode property White_Space), trimming, the first place of a character, and lines. */
module Strings {

  predicate IsWhitespace(c: char) {
    || '\t' <= c <= '\r' || c == ' ' || c == '\U{0085}' || c == '\U{00A0}' || c == '\U{1680}'
    || '\U{2000}' <= c <= '\U{200A}' || c == '\U{2028}' || c == '\U{2029}' || c == '\U{202F}'
    || c == '\U{205F}' || c == '\U{3000}'
  }

  predicate Blank(s: string) {
    forall i :: 0 <= i < |s| ==> IsWhitespace(s[i])
  }

  /** Text that trimming leaves as it is, and that is not empty. */
  predicate Solid(s: string) {
    |s| > 0 && !IsWhitespace(s[0]) && !IsWhitespace(s[|s| - 1])
  }

  function TrimStart(s: string): (t: string)
    ensures |t| <= |s| && (t != "" ==> !IsWhitespace(t[0]))
  {
    if s != "" && IsWhitespace(s[0]) then TrimStart(s[1..]) else s
  }

  function TrimEnd(s: string): (t: string)
    ensures |t| <= |s| && (t != "" ==> t[0] == s[0] && !IsWhitespace(t[|t| - 1]))
  {
    if s != "" && IsWhitespace(s[|s| - 1]) then TrimEnd(s[..|s| - 1]) else s
  }

  function Trim(s: string): string {
    TrimEnd(TrimStart(s))
  }

  lemma {:induction false} TrimEndBlank(s: string, blank: string)
    requires Blank(blank)
    ensures TrimEnd(s + blank) == TrimEnd(s)
  {
    if blank == "" {
      assert s + blank == s;
    } else {
      var last := |blank| - 1;
      assert (s + blank)[|s + blank| - 1] == blank[last];
      assert (s + blank)[..|s + blank| - 1] == s + blank[..last];
      TrimEndBlank(s, blank[..last]);
    }
  }

  lemma {:induction false} TrimStartBlank(blank: string, s: string)
    requires Blank(blank)
    ensures TrimStart(blank + s) == TrimStart(s)
  {
    if blank == "" {
      assert blank + s == s;
    } else {
      assert (blank + s)[0] == blank[0];
      assert (blank + s)[1..] == blank[1..] + s;
      TrimStartBlank(blank[1..], s);
    }
  }

  /** Text that starts and ends with visible characters is what trimming leaves of it between blanks. */
  lemma TrimBetweenBlanks(before: string, s: string, after: string)
    requires Blank(before) && Blank(after)
    requires Solid(s)
    ensures Trim(before + s + after) == s
  {
    assert before + s + after == before + (s + after);
    TrimStartBlank(before, s + after);
    assert (s + after)[0] == s[0];
    TrimEndBlank(s, after);
  }

  lemma TrimSolid(s: string)
    requires Solid(s)
    ensures Trim(s) == s
  {
    assert TrimStart(s) == s;
  }

  lemma {:induction false} TrimEndKeepsFirst(s: string)
    requires |s| > 0 && !IsWhitespace(s[0])
    ensures |TrimEnd(s)| > 0
  {
    if IsWhitespace(s[|s| - 1]) {
      TrimEndKeepsFirst(s[..|s| - 1]);
    }
  }

  lemma TrimKeepsFirst(s: string)
    requires |s| > 0 && !IsWhitespace(s[0])
    ensures 0 < |Trim(s)| <= |s| && Trim(s)[0] == s[0]
  {
    TrimEndKeepsFirst(s);
  }

  lemma TrimBlank(s: string)
    requires Blank(s)
    ensures Trim(s) == ""
  {
    TrimStartBlank(s, "");
    assert s + "" == s;
  }

  lemma {:induction false} TrimTrailing(s: string, blank: string)
    requires Blank(blank)
    ensures Trim(s + blank) == Trim(s)
  {
    if |s| == 0 {
      assert s + blank == blank;
      TrimBlank(blank);
    } else if IsWhitespace(s[0]) {
      assert (s + blank)[1..] == s[1..] + blank;
      TrimTrailing(s[1..], blank);
    } else {
      TrimEndBlank(s, blank);
    }
  }

  function IndexOf(s: string, c: char): (i: nat)
    ensures i <= |s| && (i < |s| ==> s[i] == c)
    ensures forall j :: 0 <= j < i ==> s[j] != c
  {
    if |s| == 0 || s[0] == c then 0 else 1 + IndexOf(s[1..], c)
  }

  lemma IndexOfIs(before: string, c: char, after: string)
    requires forall i :: 0 <= i < |before| ==> before[i] != c
    ensures IndexOf(before + [c] + after, c) == |before|
  {
    var s := before + [c] + after;
    assert s[|before|] == c;
    assert forall i :: 0 <= i < |before| ==> s[i] != c;
  }

  function StripReturn(line: string): string {
    if |line| > 0 && line[|line| - 1] == '\r' then line[..|line| - 1] else line
  }

  /** The lines of a text, ended by a newline or a carriage return and a newline. */
  function TextLines(text: string): seq<string>
    decreases |text|
  {
    if |text| == 0 then []
    else
      var i := IndexOf(text, '\n');
      if i == |text| then [text] else [StripReturn(text[..i])] + TextLines(text[i + 1..])
  }

  predicate OneLine(s: string) {
    forall i :: 0 <= i < |s| ==> s[i] != '\n'
  }

  /** Each line followed by a newline. */
  function Terminated(lines: seq<string>): string {
    if |lines| == 0 then "" else lines[0] + ['\n'] + Terminated(lines[1..])
  }

  /** The line is the text, which does not end in a carriage return, or has one behind it. */
  predicate IsLineOf(line: string, text: string) {
    (line == text && (|text| > 0 ==> text[|text| - 1] != '\r')) || line == text + ['\r']
  }

  lemma StripReturnIs(line: string, text: string)
    requires IsLineOf(line, text)
    ensures StripReturn(line) == text
  {
    assert line == text + ['\r'] ==> line[..|line| - 1] == text;
  }

  lemma OneMoreTextLine(line: string, text: string, rest: string)
    requires OneLine(text) && IsLineOf(line, text)
    ensures TextLines(line + ['\n'] + rest) == [text] + TextLines(rest)
  {
    var all := line + ['\n'] + rest;
    IndexOfIs(line, '\n', rest);
    StripReturnIs(line, text);
    assert all[..|line|] == line && all[|line| + 1..] == rest;
  }

  lemma LastBehind(line: string, more: string, last: string)
    ensures line + ['\n'] + more + last == line + ['\n'] + (more + last)
  {
  }

  /** The lines of texts that are ended by newlines, or by carriage returns and newlines, are these texts, and one
      more if something is left behind the last newline. */
  lemma {:induction false} TextLinesAre(lines: seq<string>, texts: seq<string>, last: string)
    requires |lines| == |texts| && OneLine(last)
    requires forall i :: 0 <= i < |texts| ==> OneLine(texts[i]) && IsLineOf(lines[i], texts[i])
    ensures TextLines(Terminated(lines) + last) == texts + if |last| == 0 then [] else [last]
    decreases |lines|
  {
    if |lines| == 0 {
      assert Terminated(lines) + last == last;
      LastTextLine(last);
    } else {
      var end := if |last| == 0 then [] else [last];
      TextLinesAre(lines[1..], texts[1..], last);
      LastBehind(lines[0], Terminated(lines[1..]), last);
      OneMoreTextLine(lines[0], texts[0], Terminated(lines[1..]) + last);
      FirstOfTexts(texts, end);
    }
  }

  lemma FirstOfTexts(texts: seq<string>, end: seq<string>)
    requires |texts| > 0
    ensures [texts[0]] + (texts[1..] + end) == texts + end
  {
  }

  lemma LastTextLine(last: string)
    requires OneLine(last)
    ensures TextLines(last) == if |last| == 0 then [] else [last]
  {
  }
}
