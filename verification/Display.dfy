/** Text on a terminal: its width in cells, escape codes that take none, truncation and wrapping. */
module Display {
  import opened Collections

  /** Cells per character and cells per text: two tables, of which the second need not add up the first. A
      character without a width of its own counts for nothing in the first. */
  datatype Widths = Widths(ofChar: char -> nat, ofText: string -> nat)

  const ELLIPSIS: char := '\U{2026}'

  function Sum(w: Widths, s: string): nat {
    if |s| == 0 then 0 else w.ofChar(s[0]) + Sum(w, s[1..])
  }

  lemma {:induction false} SumConcat(w: Widths, a: string, b: string)
    ensures Sum(w, a + b) == Sum(w, a) + Sum(w, b)
  {
    if |a| == 0 {
      assert a + b == b;
    } else {
      assert (a + b)[0] == a[0] && (a + b)[1..] == a[1..] + b;
      SumConcat(w, a[1..], b);
    }
  }

  predicate Over(alphabet: set<char>, s: string) {
    forall i :: 0 <= i < |s| ==> s[i] in alphabet
  }

  ghost predicate Joins(w: Widths, alphabet: set<char>, a: string, b: string) {
    Over(alphabet, a) && Over(alphabet, b) ==> w.ofText(a + b) <= w.ofText(a) + w.ofText(b)
  }

  ghost predicate Covers(w: Widths, alphabet: set<char>, s: string) {
    Over(alphabet, s) ==> forall i :: 0 <= i < |s| ==> w.ofChar(s[i]) <= w.ofText(s)
  }

  /** The tables agree on an alphabet: a text over it is at most as wide as its parts together, and at least as
      wide as each of its characters. Escape codes, and what a table draws wider in a text than alone, are in no
      such alphabet. */
  ghost predicate Measures(w: Widths, alphabet: set<char>) {
    && w.ofText("") == 0
    && (forall c :: c in alphabet ==> w.ofText([c]) <= w.ofChar(c))
    && (forall a, b :: Joins(w, alphabet, a, b))
    && (forall s :: Covers(w, alphabet, s))
    && ELLIPSIS in alphabet && w.ofChar(ELLIPSIS) == 1
    && ' ' in alphabet && w.ofChar(' ') == 1
  }

  lemma {:induction false} TextWithinSum(w: Widths, alphabet: set<char>, s: string)
    requires Measures(w, alphabet) && Over(alphabet, s)
    ensures w.ofText(s) <= Sum(w, s)
  {
    if |s| == 0 {
      assert s == "";
    } else {
      TextWithinSum(w, alphabet, s[1..]);
      assert s == [s[0]] + s[1..];
      assert Joins(w, alphabet, [s[0]], s[1..]);
    }
  }

  /** Tables of which one adds up the other agree on every alphabet. */
  lemma SumsMeasure(w: Widths, alphabet: set<char>)
    requires forall s :: w.ofText(s) == Sum(w, s)
    requires ELLIPSIS in alphabet && w.ofChar(ELLIPSIS) == 1 && ' ' in alphabet && w.ofChar(' ') == 1
    ensures Measures(w, alphabet)
  {
    forall c | c in alphabet
      ensures w.ofText([c]) <= w.ofChar(c)
    {
      SumOne(w, c);
    }
    forall a, b
      ensures Joins(w, alphabet, a, b)
    {
      SumConcat(w, a, b);
    }
    forall s
      ensures Covers(w, alphabet, s)
    {
      SumCovers(w, s);
    }
  }

  lemma SumOne(w: Widths, c: char)
    ensures Sum(w, [c]) == w.ofChar(c)
  {
    var s := [c];
    assert |s[1..]| == 0;
  }

  lemma {:induction false} SumCovers(w: Widths, s: string)
    ensures forall i :: 0 <= i < |s| ==> w.ofChar(s[i]) <= Sum(w, s)
  {
    if |s| > 0 {
      SumCovers(w, s[1..]);
      assert s == [s[0]] + s[1..];
    }
  }

  // ---- escape codes

  const ESC: char := '\U{001B}'

  predicate IsLetter(c: char) {
    'a' <= c <= 'z' || 'A' <= c <= 'Z'
  }

  predicate NoLetter(s: string) {
    forall i :: 0 <= i < |s| ==> !IsLetter(s[i])
  }

  /** What is left behind the first letter. */
  function BehindLetter(s: string): (t: string)
    ensures |t| <= |s|
  {
    if |s| == 0 then "" else if IsLetter(s[0]) then s[1..] else BehindLetter(s[1..])
  }

  /** The text without its escape codes: `ESC [` up to the next letter, or to the end. */
  function Stripped(s: string): string
    decreases |s|
  {
    if |s| == 0 then ""
    else if s[0] == ESC && |s| > 1 && s[1] == '[' then Stripped(BehindLetter(s[2..]))
    else [s[0]] + Stripped(s[1..])
  }

  lemma StrippedAt(text: string, i: nat)
    requires i <= |text|
    ensures var rest := Stripped(text[i..]);
            if i == |text| then rest == ""
            else if text[i] == ESC && i + 1 < |text| && text[i + 1] == '[' then rest == Stripped(BehindLetter(text[i + 2..]))
            else rest == [text[i]] + Stripped(text[i + 1..])
  {
    var rest := text[i..];
    if i < |text| {
      assert rest[1..] == text[i + 1..];
      if i + 1 < |text| {
        assert rest[2..] == text[i + 2..];
      }
    }
  }

  lemma BehindLetterAt(text: string, i: nat)
    requires i < |text|
    ensures BehindLetter(text[i..]) == if IsLetter(text[i]) then text[i + 1..] else BehindLetter(text[i + 1..])
  {
    assert text[i..][1..] == text[i + 1..];
  }

  method StripAnsi(text: string) returns (out: string)
    ensures out == Stripped(text)
  {
    out := "";
    var i := 0;
    assert text[0..] == text && "" + Stripped(text) == Stripped(text);
    while i < |text|
      invariant i <= |text| && out + Stripped(text[i..]) == Stripped(text)
    {
      var c := text[i];
      StrippedAt(text, i);
      i := i + 1;
      if c == ESC && i < |text| && text[i] == '[' {
        i := i + 1;
        ghost var behind := BehindLetter(text[i..]);
        while i < |text|
          invariant i <= |text| && behind == BehindLetter(text[i..])
        {
          var code := text[i];
          BehindLetterAt(text, i);
          i := i + 1;
          if IsLetter(code) {
            break;
          }
        }
        assert behind == text[i..];
      } else {
        ConcatAssoc(out, [c], Stripped(text[i..]));
        out := out + [c];
      }
    }
    StrippedAt(text, i);
    assert out + "" == out;
  }

  function Code(parameters: string, final: char): string {
    [ESC, '['] + parameters + [final]
  }

  lemma {:induction false} BehindLetterConcat(a: string, b: string)
    ensures BehindLetter(a + b) == if NoLetter(a) then BehindLetter(b) else BehindLetter(a) + b
    ensures NoLetter(a) ==> BehindLetter(a) == ""
  {
    if |a| == 0 {
      assert a + b == b;
    } else {
      assert (a + b)[0] == a[0] && (a + b)[1..] == a[1..] + b;
      BehindLetterConcat(a[1..], b);
    }
  }

  lemma BehindCode(parameters: string, final: char, rest: string)
    requires NoLetter(parameters) && IsLetter(final)
    ensures BehindLetter(Code(parameters, final)) == ""
    ensures BehindLetter(parameters + [final] + rest) == rest
  {
    BehindLetterConcat([ESC, '['] + parameters, [final]);
    assert [ESC, '['] + parameters + [final] == Code(parameters, final);
    assert parameters + [final] + rest == parameters + ([final] + rest);
    BehindLetterConcat(parameters, [final] + rest);
    assert ([final] + rest)[1..] == rest;
  }

  /** A code in front of a text takes no cell. */
  lemma CodeInFront(parameters: string, final: char, s: string)
    requires NoLetter(parameters) && IsLetter(final)
    ensures Stripped(Code(parameters, final) + s) == Stripped(s)
  {
    var text := Code(parameters, final) + s;
    assert text[2..] == parameters + [final] + s;
    BehindCode(parameters, final, s);
  }

  /** Nor does one behind it, even if the text ends in the middle of a code. */
  lemma {:induction false} CodeBehind(s: string, parameters: string, final: char)
    requires NoLetter(parameters) && IsLetter(final)
    ensures Stripped(s + Code(parameters, final)) == Stripped(s)
    decreases |s|
  {
    var code := Code(parameters, final);
    if |s| == 0 {
      CodeInFront(parameters, final, "");
      assert s + code == code + "";
    } else if s[0] == ESC && |s| > 1 && s[1] == '[' {
      assert (s + code)[2..] == s[2..] + code;
      BehindLetterConcat(s[2..], code);
      BehindCode(parameters, final, "");
      if !NoLetter(s[2..]) {
        CodeBehind(BehindLetter(s[2..]), parameters, final);
      }
    } else {
      assert (s + code)[1..] == s[1..] + code;
      assert |s| == 1 ==> (s + code)[1] == ESC;
      CodeBehind(s[1..], parameters, final);
    }
  }

  /** No escape code starts in the text. */
  predicate NoCode(s: string) {
    forall i :: 0 <= i < |s| - 1 ==> !(s[i] == ESC && s[i + 1] == '[')
  }

  /** A text in which no code starts stays as it is, lone escape characters included, whatever is behind it. */
  lemma {:induction false} TextStays(s: string, rest: string)
    requires NoCode(s) && (|s| > 0 && |rest| > 0 ==> !(s[|s| - 1] == ESC && rest[0] == '['))
    ensures Stripped(s + rest) == s + Stripped(rest)
  {
    if |s| == 0 {
      assert s + rest == rest;
      assert s + Stripped(rest) == Stripped(rest);
    } else {
      assert (s + rest)[1..] == s[1..] + rest;
      TextStays(s[1..], rest);
      assert |s + rest| > 1 ==> (s + rest)[1] == if |s| > 1 then s[1] else rest[0];
      assert s + Stripped(rest) == [s[0]] + (s[1..] + Stripped(rest));
    }
  }

  lemma NothingToStrip(s: string)
    requires NoCode(s)
    ensures Stripped(s) == s
  {
    TextStays(s, "");
    assert s + "" == s;
  }

  /** A code that is not finished takes the rest of the text with it. */
  lemma UnfinishedCode(parameters: string)
    requires NoLetter(parameters)
    ensures Stripped([ESC, '['] + parameters) == ""
  {
    BehindLetterConcat(parameters, "");
    assert parameters + "" == parameters;
    assert ([ESC, '['] + parameters)[2..] == parameters;
  }

  function Paint(color: bool, text: string, code: string): string {
    if !color || |code| == 0 then text else Code(code, 'm') + text + Code("0", 'm')
  }

  lemma PaintIs(text: string, code: string)
    ensures Paint(false, text, code) == text
    ensures |code| > 0 ==> Paint(true, text, code) == "\U{001B}[" + code + "m" + text + "\U{001B}[0m"
  {
    assert Code("0", 'm') == "\U{001B}[0m";
  }

  lemma PaintTakesNoCell(color: bool, text: string, code: string)
    requires NoLetter(code)
    ensures Stripped(Paint(color, text, code)) == Stripped(text)
  {
    CodeBehind(Code(code, 'm') + text, "0", 'm');
    CodeInFront(code, 'm', text);
  }

  // ---- truncation

  /** How many characters at the front fit. */
  function Fitting(w: Widths, s: string, cells: nat): (k: nat)
    ensures k <= |s|
  {
    if |s| == 0 || w.ofChar(s[0]) > cells then 0 else 1 + Fitting(w, s[1..], cells - w.ofChar(s[0]))
  }

  function Truncated(w: Widths, value: string, width: nat): string {
    if w.ofText(value) <= width then value
    else if width == 0 then ""
    else if width == 1 then [ELLIPSIS]
    else value[..Fitting(w, value, width - 1)] + [ELLIPSIS]
  }

  /** They are as many as possible. */
  lemma {:induction false} FittingIsLongest(w: Widths, s: string, cells: nat)
    ensures Sum(w, s[..Fitting(w, s, cells)]) <= cells
    ensures Fitting(w, s, cells) < |s| ==> Sum(w, s[..Fitting(w, s, cells) + 1]) > cells
    ensures Fitting(w, s, cells) == |s| <==> Sum(w, s) <= cells
  {
    if |s| > 0 && w.ofChar(s[0]) <= cells {
      var k := Fitting(w, s[1..], cells - w.ofChar(s[0]));
      FittingIsLongest(w, s[1..], cells - w.ofChar(s[0]));
      assert s[..k + 1] == [s[0]] + s[1..][..k];
      SumConcat(w, [s[0]], s[1..][..k]);
      if k < |s| - 1 {
        assert s[..k + 2] == [s[0]] + s[1..][..k + 1];
        SumConcat(w, [s[0]], s[1..][..k + 1]);
      }
    } else if |s| > 0 {
      assert s[..1] == [s[0]];
    }
  }

  /** Over an alphabet on which the tables agree, truncation never exceeds its width, and shortens only what does
      not fit. */
  lemma TruncatedFits(w: Widths, alphabet: set<char>, value: string, width: nat)
    requires Measures(w, alphabet) && Over(alphabet, value)
    ensures w.ofText(Truncated(w, value, width)) <= width
    ensures Truncated(w, value, width) == value <==> w.ofText(value) <= width
    ensures Over(alphabet, Truncated(w, value, width))
    ensures width >= 1 && |value| > 0 ==> |Truncated(w, value, width)| > 0
  {
    TextWithinSum(w, alphabet, [ELLIPSIS]);
    if w.ofText(value) > width >= 2 {
      var kept := value[..Fitting(w, value, width - 1)];
      FittingIsLongest(w, value, width - 1);
      SumConcat(w, kept, [ELLIPSIS]);
      TextWithinSum(w, alphabet, kept + [ELLIPSIS]);
    }
  }

  /** Elsewhere it may exceed the width: a text that is wider than the width while its characters add up to less
      comes out with nothing cut and an ellipsis more, and if that makes it no narrower it still does not fit. */
  lemma TruncationLengthens(w: Widths, value: string, width: nat)
    requires w.ofText("") == 0
    ensures |Truncated(w, value, width)| > |value| <==> w.ofText(value) > width > Sum(w, value) && width >= 2
    ensures |Truncated(w, value, width)| > |value| ==> Truncated(w, value, width) == value + [ELLIPSIS]
    ensures |Truncated(w, value, width)| > |value| && w.ofText(value + [ELLIPSIS]) >= w.ofText(value) ==>
              w.ofText(Truncated(w, value, width)) > width
  {
    assert |value| == 0 ==> value == "";
    if w.ofText(value) > width >= 2 {
      FittingIsLongest(w, value, width - 1);
      assert value[..|value|] == value;
    }
  }

  lemma FrontsGrow(w: Widths, s: string, i: nat, j: nat)
    requires i <= j <= |s|
    ensures Sum(w, s[..i]) <= Sum(w, s[..j])
  {
    assert s[..j] == s[..i] + s[i..j];
    SumConcat(w, s[..i], s[i..j]);
  }

  /** No other number of characters is as many as possible. */
  lemma FittingIs(w: Widths, s: string, cells: nat, k: nat)
    requires k <= |s| && Sum(w, s[..k]) <= cells && (k < |s| ==> Sum(w, s[..k + 1]) > cells)
    ensures Fitting(w, s, cells) == k
  {
    var m := Fitting(w, s, cells);
    FittingIsLongest(w, s, cells);
    if m < k {
      FrontsGrow(w, s, m + 1, k);
    } else if m > k {
      FrontsGrow(w, s, k + 1, m);
    }
  }

  /** The least width of two or more at which `k` characters fit in front of an ellipsis. */
  function Room(w: Widths, value: string, k: nat): nat
    requires k <= |value|
  {
    1 + if Sum(w, value[..k]) == 0 then 1 else Sum(w, value[..k])
  }

  /** At some width the text does not fit, and `k` of its characters are kept. */
  ghost predicate CanKeep(w: Widths, value: string, k: nat) {
    && k <= |value| && Room(w, value, k) < w.ofText(value)
    && (k < |value| ==> Sum(w, value[..k + 1]) >= Room(w, value, k))
  }

  lemma KeptAtRoom(w: Widths, value: string, k: nat)
    requires CanKeep(w, value, k)
    ensures Truncated(w, value, Room(w, value, k)) == value[..k] + [ELLIPSIS]
  {
    FittingIs(w, value, Room(w, value, k) - 1, k);
  }

  lemma KeptNeedsRoom(w: Widths, value: string, width: nat)
    requires w.ofText(value) > width >= 2
    ensures var k := Fitting(w, value, width - 1);
            CanKeep(w, value, k) && Room(w, value, k) <= width && Truncated(w, value, width) == value[..k] + [ELLIPSIS]
  {
    FittingIsLongest(w, value, width - 1);
  }

  ghost predicate FitsAtEveryWidth(w: Widths, value: string) {
    forall width: nat :: w.ofText(Truncated(w, value, width)) <= width
  }

  /** In general truncation keeps to every width if and only if each front it can keep, with an ellipsis behind
      it, is no wider as a text than the characters of the front (at least one cell) and the ellipsis. */
  lemma TruncationFitsExactly(w: Widths, value: string)
    requires w.ofText("") == 0 && w.ofText([ELLIPSIS]) <= 1
    ensures FitsAtEveryWidth(w, value) <==>
            forall k: nat :: CanKeep(w, value, k) ==> w.ofText(value[..k] + [ELLIPSIS]) <= Room(w, value, k)
  {
    if FitsAtEveryWidth(w, value) {
      forall k: nat | CanKeep(w, value, k)
        ensures w.ofText(value[..k] + [ELLIPSIS]) <= Room(w, value, k)
      {
        KeptAtRoom(w, value, k);
        assert w.ofText(Truncated(w, value, Room(w, value, k))) <= Room(w, value, k);
      }
    }
    if forall k: nat :: CanKeep(w, value, k) ==> w.ofText(value[..k] + [ELLIPSIS]) <= Room(w, value, k) {
      forall width: nat
        ensures w.ofText(Truncated(w, value, width)) <= width
      {
        if w.ofText(value) > width >= 2 {
          KeptNeedsRoom(w, value, width);
        }
      }
    }
  }

  /** Tables in which a tab counts for nothing alone and for one cell in a text. */
  const TAB_TABLES := Widths((c: char) => if c == '\t' then 0 else 1, (s: string) => |s|)

  function Tabs(n: nat): string {
    seq(n, i => '\t')
  }

  /** Then a text with tabs in front, cut to two cells and no longer than before, is as much too wide as it has tabs. */
  lemma TruncationExceeds(n: nat)
    requires n >= 1
    ensures Truncated(TAB_TABLES, Tabs(n) + "ab", 2) == Tabs(n) + "a" + [ELLIPSIS]
    ensures TAB_TABLES.ofText(Truncated(TAB_TABLES, Tabs(n) + "ab", 2)) == 2 + n
  {
    var value := Tabs(n) + "ab";
    TabsSum(n);
    assert value[..n + 1] == Tabs(n) + ['a'] && value == value[..n + 1] + ['b'] && value[..n + 2] == value;
    SumConcat(TAB_TABLES, Tabs(n), ['a']);
    SumConcat(TAB_TABLES, value[..n + 1], ['b']);
    SumOne(TAB_TABLES, 'a');
    SumOne(TAB_TABLES, 'b');
    FittingIs(TAB_TABLES, value, 1, n + 1);
  }

  lemma {:induction false} TabsSum(n: nat)
    ensures Sum(TAB_TABLES, Tabs(n)) == 0
  {
    if n > 0 {
      assert Tabs(n)[1..] == Tabs(n - 1);
      TabsSum(n - 1);
    }
  }

  method TruncateDisplay(w: Widths, value: string, width: nat) returns (r: string)
    ensures r == Truncated(w, value, width)
  {
    if w.ofText(value) <= width {
      return value;
    }
    if width == 0 {
      return "";
    }
    if width == 1 {
      return [ELLIPSIS];
    }
    var target := width - 1;
    var used := 0;
    var truncated := "";
    var i := 0;
    assert value[0..] == value;
    while i < |value|
      invariant i <= |value| && truncated == value[..i] && used <= target
      invariant Fitting(w, value, target) == i + Fitting(w, value[i..], target - used)
    {
      var c := value[i];
      if used + w.ofChar(c) > target {
        break;
      }
      assert value[i..][1..] == value[i + 1..];
      truncated := truncated + [c];
      used := used + w.ofChar(c);
      i := i + 1;
    }
    r := truncated + [ELLIPSIS];
  }
}
