/** Wrapping text to a width: words, split where they are too long, filled into lines greedily. */
module Wrapping {
  import opened Collections
  import opened Strings
  import opened Display

  function Concat(pieces: seq<string>): string {
    if |pieces| == 0 then "" else pieces[0] + Concat(pieces[1..])
  }

  lemma {:induction false} ConcatAppend(a: seq<string>, b: seq<string>)
    ensures Concat(a + b) == Concat(a) + Concat(b)
  {
    if |a| == 0 {
      assert a + b == b;
    } else {
      assert (a + b)[0] == a[0] && (a + b)[1..] == a[1..] + b;
      ConcatAppend(a[1..], b);
    }
  }

  // ---- splitting one word

  /** Pieces of a word, the first of which starts with `current`. */
  function SplitFrom(w: Widths, current: string, rest: string, width: nat): seq<string>
    decreases |rest|
  {
    if |rest| == 0 then (if |current| == 0 then [] else [current])
    else if |current| > 0 && Sum(w, current) + w.ofChar(rest[0]) > width then
      [current] + SplitFrom(w, [rest[0]], rest[1..], width)
    else SplitFrom(w, current + [rest[0]], rest[1..], width)
  }

  method SplitDisplayWord(w: Widths, word: string, width: nat) returns (pieces: seq<string>)
    ensures pieces == SplitFrom(w, "", word, width)
  {
    pieces := [];
    var current := "";
    var used := 0;
    var i := 0;
    assert word[0..] == word;
    assert pieces + SplitFrom(w, current, word, width) == SplitFrom(w, "", word, width);
    while i < |word|
      invariant i <= |word| && used == Sum(w, current)
      invariant pieces + SplitFrom(w, current, word[i..], width) == SplitFrom(w, "", word, width)
    {
      var c := word[i];
      ghost var rest := word[i..];
      assert rest[0] == c && rest[1..] == word[i + 1..];
      if |current| > 0 && used + w.ofChar(c) > width {
        PushFirst(pieces, current, SplitFrom(w, [c], word[i + 1..], width));
        pieces := pieces + [current];
        current, used := "", 0;
      }
      SumConcat(w, current, [c]);
      assert |current| == 0 ==> current + [c] == [c];
      current := current + [c];
      used := used + w.ofChar(c);
      i := i + 1;
    }
    if |current| > 0 {
      pieces := pieces + [current];
    }
  }

  lemma PushFirst<T>(a: seq<T>, x: T, b: seq<T>)
    ensures a + ([x] + b) == a + [x] + b
  {
  }

  /** Pieces that fit, unless they are one character that does not fit anywhere. */
  ghost predicate AllFit(w: Widths, pieces: seq<string>, width: nat) {
    forall i :: 0 <= i < |pieces| ==> |pieces[i]| > 0 && (Sum(w, pieces[i]) <= width || |pieces[i]| == 1)
  }

  ghost predicate NoRoom(w: Widths, piece: string, next: string, width: nat) {
    |next| > 0 && Sum(w, piece) + w.ofChar(next[0]) > width
  }

  /** No piece has room for the character after it. */
  ghost predicate Tight(w: Widths, pieces: seq<string>, width: nat) {
    forall i :: 1 <= i < |pieces| ==> NoRoom(w, pieces[i - 1], pieces[i], width)
  }

  lemma OneMorePiece(w: Widths, piece: string, pieces: seq<string>, width: nat)
    requires |piece| > 0 && (Sum(w, piece) <= width || |piece| == 1)
    requires AllFit(w, pieces, width) && Tight(w, pieces, width)
    requires |pieces| > 0 && NoRoom(w, piece, pieces[0], width)
    ensures AllFit(w, [piece] + pieces, width) && Tight(w, [piece] + pieces, width)
  {
    var all := [piece] + pieces;
    forall i | 1 <= i < |all|
      ensures NoRoom(w, all[i - 1], all[i], width)
    {
      assert all[i] == pieces[i - 1];
      assert i > 1 ==> all[i - 1] == pieces[i - 2];
    }
  }

  /** Splitting loses nothing, and makes pieces that are as long as they can be. */
  lemma {:induction false} SplitIsExact(w: Widths, current: string, rest: string, width: nat)
    requires Sum(w, current) <= width || |current| == 1
    ensures Concat(SplitFrom(w, current, rest, width)) == current + rest
    ensures AllFit(w, SplitFrom(w, current, rest, width), width)
    ensures Tight(w, SplitFrom(w, current, rest, width), width)
    ensures |current| > 0 ==> |SplitFrom(w, current, rest, width)| > 0 && SplitFrom(w, current, rest, width)[0][0] == current[0]
    decreases |rest|
  {
    if |rest| == 0 {
      assert current + rest == current;
      assert |current| > 0 ==> Concat([current]) == current + Concat([]);
    } else {
      var c := rest[0];
      assert rest == [c] + rest[1..];
      SumConcat(w, current, [c]);
      assert current + [c] + rest[1..] == current + rest;
      if |current| > 0 && Sum(w, current) + w.ofChar(c) > width {
        SplitIsExact(w, [c], rest[1..], width);
        OneMorePiece(w, current, SplitFrom(w, [c], rest[1..], width), width);
      } else {
        SplitIsExact(w, current + [c], rest[1..], width);
      }
    }
  }

  // ---- words

  function WordEnd(current: string): seq<string> {
    if |current| == 0 then [] else [current]
  }

  function WordsFrom(current: string, rest: string): seq<string>
    decreases |rest|
  {
    if |rest| == 0 then WordEnd(current)
    else if IsWhitespace(rest[0]) then WordEnd(current) + WordsFrom("", rest[1..])
    else WordsFrom(current + [rest[0]], rest[1..])
  }

  /** The characters that are not white space. */
  function Visible(s: string): string {
    if |s| == 0 then "" else (if IsWhitespace(s[0]) then "" else [s[0]]) + Visible(s[1..])
  }

  lemma {:induction false} VisibleConcat(a: string, b: string)
    ensures Visible(a + b) == Visible(a) + Visible(b)
  {
    if |a| == 0 {
      assert a + b == b;
    } else {
      assert (a + b)[0] == a[0] && (a + b)[1..] == a[1..] + b;
      VisibleConcat(a[1..], b);
    }
  }

  lemma {:induction false} WordsKeepVisible(current: string, rest: string)
    ensures Visible(Concat(WordsFrom(current, rest))) == Visible(current + rest)
    decreases |rest|
  {
    if |rest| == 0 {
      assert current + rest == current;
      assert |current| > 0 ==> Concat([current]) == current + Concat([]);
    } else {
      var c := rest[0];
      assert rest == [c] + rest[1..];
      assert current + [c] + rest[1..] == current + rest;
      if IsWhitespace(c) {
        WordsKeepVisible("", rest[1..]);
        assert "" + rest[1..] == rest[1..];
        ConcatAppend(WordEnd(current), WordsFrom("", rest[1..]));
        assert Concat(WordEnd(current)) == current;
        VisibleConcat(current, Concat(WordsFrom("", rest[1..])));
        VisibleConcat(current, rest);
      } else {
        WordsKeepVisible(current + [c], rest[1..]);
      }
    }
  }

  function PiecesOf(w: Widths, words: seq<string>, width: nat): seq<string> {
    if |words| == 0 then []
    else PiecesOf(w, words[..|words| - 1], width) + WordPieces(w, words[|words| - 1], width)
  }

  function WordPieces(w: Widths, word: string, width: nat): seq<string> {
    if w.ofText(word) <= width then [word] else SplitFrom(w, "", word, width)
  }

  // ---- filling lines

  /** The cells counted for a line: those of its pieces, and one for each space between them. */
  function Cells(w: Widths, group: seq<string>): nat {
    if |group| == 0 then 0
    else
      var front := Cells(w, group[..|group| - 1]);
      front + (if front > 0 then 1 else 0) + w.ofText(group[|group| - 1])
  }

  /** The pieces, a space before each for which cells have been counted already. */
  function Joined(w: Widths, group: seq<string>): string {
    if |group| == 0 then ""
    else
      var front := group[..|group| - 1];
      Joined(w, front) + (if Cells(w, front) > 0 then " " else "") + group[|group| - 1]
  }

  /** A line takes a piece as long as it has room for a space and the piece, or has no cell yet. */
  predicate StartsLine(w: Widths, group: seq<string>, piece: string, width: nat) {
    Cells(w, group) > 0 && Cells(w, group) + 1 + w.ofText(piece) > width
  }

  /** The pieces of each line, the first of which starts with `group`. */
  function Groups(w: Widths, group: seq<string>, rest: seq<string>, width: nat): seq<seq<string>>
    decreases |rest|
  {
    if |rest| == 0 then (if |group| == 0 then [] else [group])
    else if StartsLine(w, group, rest[0], width) then
      [group] + Groups(w, [rest[0]], rest[1..], width)
    else Groups(w, group + [rest[0]], rest[1..], width)
  }

  function LinesOf(w: Widths, groups: seq<seq<string>>): (lines: seq<string>)
    ensures |lines| == |groups| && forall i :: 0 <= i < |lines| ==> lines[i] == Joined(w, groups[i])
  {
    if |groups| == 0 then [] else [Joined(w, groups[0])] + LinesOf(w, groups[1..])
  }

  ghost predicate LineFull(w: Widths, group: seq<string>, next: seq<string>, width: nat) {
    |next| > 0 && Cells(w, group) + 1 + w.ofText(next[0]) > width
  }

  /** Lines of pieces, none of which has room for the piece after it. */
  ghost predicate IsFilled(w: Widths, groups: seq<seq<string>>, width: nat) {
    && (forall i :: 0 <= i < |groups| ==> |groups[i]| > 0)
    && forall i :: 1 <= i < |groups| ==> LineFull(w, groups[i - 1], groups[i], width)
  }

  function Flat(groups: seq<seq<string>>): seq<string> {
    if |groups| == 0 then [] else groups[0] + Flat(groups[1..])
  }

  lemma OneMoreGroup(w: Widths, group: seq<string>, groups: seq<seq<string>>, width: nat)
    requires |group| > 0 && IsFilled(w, groups, width) && |groups| > 0 && LineFull(w, group, groups[0], width)
    ensures IsFilled(w, [group] + groups, width) && Flat([group] + groups) == group + Flat(groups)
  {
    var all := [group] + groups;
    forall i | 1 <= i < |all|
      ensures LineFull(w, all[i - 1], all[i], width)
    {
      assert all[i] == groups[i - 1];
      assert i > 1 ==> all[i - 1] == groups[i - 2];
    }
    assert all[1..] == groups;
  }

  /** Filling keeps all the pieces in order, and starts a line only when the one before has no room. */
  lemma {:induction false} GroupsAreFilled(w: Widths, group: seq<string>, rest: seq<string>, width: nat)
    ensures Flat(Groups(w, group, rest, width)) == group + rest
    ensures IsFilled(w, Groups(w, group, rest, width), width)
    ensures |group| > 0 ==> |Groups(w, group, rest, width)| > 0 && group <= Groups(w, group, rest, width)[0]
    decreases |rest|
  {
    if |rest| == 0 {
      assert group + rest == group;
      assert |group| > 0 ==> Flat([group]) == group + Flat([]);
    } else {
      PushFirst(group, rest[0], rest[1..]);
      assert [rest[0]] + rest[1..] == rest;
      if StartsLine(w, group, rest[0], width) {
        var tail := Groups(w, [rest[0]], rest[1..], width);
        GroupsAreFilled(w, [rest[0]], rest[1..], width);
        OneMoreGroup(w, group, tail, width);
      } else {
        GroupsAreFilled(w, group + [rest[0]], rest[1..], width);
      }
    }
  }

  /** The lines of a text. */
  function Wrapped(w: Widths, text: string, maxWidth: nat): (lines: seq<string>)
    ensures |lines| > 0
  {
    var width := if maxWidth == 0 then 1 else maxWidth;
    if w.ofText(text) <= width then [text]
    else
      var lines := LinesOf(w, Groups(w, [], PiecesOf(w, WordsFrom("", text), width), width));
      if |lines| == 0 then [""] else lines
  }

  method WrapDisplay(w: Widths, text: string, maxWidth: nat) returns (lines: seq<string>)
    ensures lines == Wrapped(w, text, maxWidth)
  {
    var width := if maxWidth == 0 then 1 else maxWidth;
    if w.ofText(text) <= width {
      return [text];
    }
    var pieces: seq<string> := [];
    var words := WordsFrom("", text);
    for i := 0 to |words|
      invariant pieces == PiecesOf(w, words[..i], width)
    {
      assert words[..i + 1][..i] == words[..i];
      if w.ofText(words[i]) <= width {
        pieces := pieces + [words[i]];
      } else {
        var split := SplitDisplayWord(w, words[i], width);
        pieces := pieces + split;
      }
    }
    assert words[..|words|] == words;
    WordsAreNotEmpty("", text);
    PiecesAreNotEmpty(w, words, width);
    lines := FillLines(w, pieces, width);
    if |lines| == 0 {
      lines := [""];
    }
  }

  /** The filling stands behind `i` pieces: lines that are done, and the pieces of the line in progress. */
  ghost predicate Filling(w: Widths, pieces: seq<string>, i: nat, done: seq<seq<string>>, group: seq<string>, width: nat) {
    i <= |pieces| && done + Groups(w, group, pieces[i..], width) == Groups(w, [], pieces, width)
  }

  lemma FillNext(w: Widths, pieces: seq<string>, i: nat, done: seq<seq<string>>, group: seq<string>, width: nat)
    requires i < |pieces| && Filling(w, pieces, i, done, group, width) && !StartsLine(w, group, pieces[i], width)
    ensures Filling(w, pieces, i + 1, done, group + [pieces[i]], width)
  {
    assert pieces[i..][1..] == pieces[i + 1..];
  }

  lemma FillNewLine(w: Widths, pieces: seq<string>, i: nat, done: seq<seq<string>>, group: seq<string>, width: nat)
    requires i < |pieces| && Filling(w, pieces, i, done, group, width) && StartsLine(w, group, pieces[i], width)
    ensures Filling(w, pieces, i + 1, done + [group], [pieces[i]], width)
  {
    assert pieces[i..][1..] == pieces[i + 1..];
    PushFirst(done, group, Groups(w, [pieces[i]], pieces[i + 1..], width));
  }

  /** The greedy loop. */
  method FillLines(w: Widths, pieces: seq<string>, width: nat) returns (lines: seq<string>)
    requires NoneEmpty(pieces)
    ensures lines == LinesOf(w, Groups(w, [], pieces, width))
  {
    lines := [];
    var current, used := "", 0;
    ghost var group: seq<string> := [];
    ghost var done: seq<seq<string>> := [];
    assert pieces[0..] == pieces;
    for i := 0 to |pieces|
      invariant current == Joined(w, group) && used == Cells(w, group)
      invariant lines == LinesOf(w, done) && NoneEmpty(group)
      invariant Filling(w, pieces, i, done, group, width)
    {
      var piece := pieces[i];
      if used > 0 && used + 1 + w.ofText(piece) > width {
        FillNewLine(w, pieces, i, done, group, width);
        LinesOfMore(w, done, group);
        lines := lines + [current];
        current, used := "", 0;
        done, group := done + [group], [];
      } else {
        FillNext(w, pieces, i, done, group, width);
      }
      JoinedMore(w, group, piece);
      group := group + [piece];
      if used > 0 {
        current := current + " ";
        used := used + 1;
      }
      current := current + piece;
      used := used + w.ofText(piece);
    }
    JoinedNotEmpty(w, group);
    if |current| > 0 {
      LinesOfMore(w, done, group);
      lines := lines + [current];
    }
  }

  predicate NoneEmpty(pieces: seq<string>) {
    forall i :: 0 <= i < |pieces| ==> |pieces[i]| > 0
  }

  lemma JoinedNotEmpty(w: Widths, group: seq<string>)
    requires NoneEmpty(group)
    ensures |Joined(w, group)| > 0 <==> |group| > 0
  {
  }

  lemma JoinedMore(w: Widths, group: seq<string>, piece: string)
    ensures Joined(w, group + [piece]) == Joined(w, group) + (if Cells(w, group) > 0 then " " else "") + piece
    ensures Cells(w, group + [piece]) == Cells(w, group) + (if Cells(w, group) > 0 then 1 else 0) + w.ofText(piece)
  {
    assert (group + [piece])[..|group|] == group;
  }

  lemma {:induction false} LinesOfMore(w: Widths, groups: seq<seq<string>>, group: seq<string>)
    ensures LinesOf(w, groups + [group]) == LinesOf(w, groups) + [Joined(w, group)]
  {
  }

  lemma {:induction false} WordsAreNotEmpty(current: string, rest: string)
    ensures NoneEmpty(WordsFrom(current, rest))
    decreases |rest|
  {
    if |rest| > 0 {
      WordsAreNotEmpty("", rest[1..]);
      WordsAreNotEmpty(current + [rest[0]], rest[1..]);
    }
  }

  lemma {:induction false} PiecesAreNotEmpty(w: Widths, words: seq<string>, width: nat)
    requires NoneEmpty(words)
    ensures NoneEmpty(PiecesOf(w, words, width))
  {
    if |words| > 0 {
      PiecesAreNotEmpty(w, words[..|words| - 1], width);
      SplitIsExact(w, "", words[|words| - 1], width);
    }
  }

  // ---- no character is lost

  lemma ConcatOne(s: string)
    ensures Concat([s]) == s
  {
    assert |[s][1..]| == 0;
    assert s + "" == s;
  }

  lemma WordPiecesAreTheWord(w: Widths, word: string, width: nat)
    ensures Concat(WordPieces(w, word, width)) == word
  {
    SplitIsExact(w, "", word, width);
    assert "" + word == word;
    ConcatOne(word);
  }

  lemma {:induction false} PiecesAreTheWords(w: Widths, words: seq<string>, width: nat)
    ensures Concat(PiecesOf(w, words, width)) == Concat(words)
  {
    if |words| > 0 {
      var front, last := words[..|words| - 1], words[|words| - 1];
      PiecesAreTheWords(w, front, width);
      WordPiecesAreTheWord(w, last, width);
      ConcatAppend(PiecesOf(w, front, width), WordPieces(w, last, width));
      ConcatOne(last);
      ConcatAppend(front, [last]);
      assert front + [last] == words;
    }
  }

  lemma {:induction false} JoiningAddsSpaces(w: Widths, group: seq<string>)
    ensures Visible(Joined(w, group)) == Visible(Concat(group))
  {
    if |group| > 0 {
      var front, last := group[..|group| - 1], group[|group| - 1];
      JoiningAddsSpaces(w, front);
      var line, space := Joined(w, front), if Cells(w, front) > 0 then " " else "";
      VisibleConcat(line + space, last);
      VisibleConcat(line, space);
      ConcatAppend(front, [last]);
      assert front + [last] == group && Concat([last]) == last + "" == last;
      VisibleConcat(Concat(front), last);
      assert Visible(line) + "" == Visible(line);
    }
  }

  lemma {:induction false} LinesKeepVisible(w: Widths, groups: seq<seq<string>>)
    ensures Visible(Concat(LinesOf(w, groups))) == Visible(Concat(Flat(groups)))
  {
    if |groups| > 0 {
      LinesKeepVisible(w, groups[1..]);
      JoiningAddsSpaces(w, groups[0]);
      var lines := LinesOf(w, groups);
      assert lines[1..] == LinesOf(w, groups[1..]);
      VisibleConcat(lines[0], Concat(lines[1..]));
      ConcatAppend(groups[0], Flat(groups[1..]));
      VisibleConcat(Concat(groups[0]), Concat(Flat(groups[1..])));
    }
  }

  /** Wrapping keeps every character that is not white space, in order. */
  lemma WrappingKeepsVisible(w: Widths, text: string, maxWidth: nat)
    ensures Visible(Concat(Wrapped(w, text, maxWidth))) == Visible(text)
  {
    var width := if maxWidth == 0 then 1 else maxWidth;
    if w.ofText(text) <= width {
      assert Concat([text]) == text + "" == text;
    } else {
      var words := WordsFrom("", text);
      var pieces := PiecesOf(w, words, width);
      var groups := Groups(w, [], pieces, width);
      WordsKeepVisible("", text);
      assert "" + text == text;
      PiecesAreTheWords(w, words, width);
      GroupsAreFilled(w, [], pieces, width);
      assert [] + pieces == pieces;
      LinesKeepVisible(w, groups);
      assert Concat([""]) == "" + "";
    }
  }

  // ---- words stay apart

  /** A word: not empty, and without white space. */
  predicate Unbroken(s: string) {
    |s| > 0 && forall i :: 0 <= i < |s| ==> !IsWhitespace(s[i])
  }

  predicate AllUnbroken(words: seq<string>) {
    forall i :: 0 <= i < |words| ==> Unbroken(words[i])
  }

  /** Words end at white space, */
  lemma {:induction false} WordsSplit(current: string, a: string, c: char, b: string)
    requires IsWhitespace(c)
    ensures WordsFrom(current, a + [c] + b) == WordsFrom(current, a) + WordsFrom("", b)
    decreases |a|
  {
    var text := a + [c] + b;
    if |a| == 0 {
      assert text == [c] + b && text[1..] == b;
    } else {
      assert text[1..] == a[1..] + [c] + b;
      if IsWhitespace(a[0]) {
        WordsSplit("", a[1..], c, b);
        ConcatAssoc(WordEnd(current), WordsFrom("", a[1..]), WordsFrom("", b));
      } else {
        WordsSplit(current + [a[0]], a[1..], c, b);
      }
    }
  }

  /** and only there. */
  lemma {:induction false} OneWord(current: string, rest: string)
    requires Unbroken(current + rest)
    ensures WordsFrom(current, rest) == [current + rest]
    decreases |rest|
  {
    if |rest| == 0 {
      assert current + rest == current;
    } else {
      assert (current + rest)[|current|] == rest[0];
      assert current + [rest[0]] + rest[1..] == current + rest;
      OneWord(current + [rest[0]], rest[1..]);
    }
  }

  lemma {:induction false} WordsAreUnbroken(current: string, rest: string)
    requires |current| > 0 ==> Unbroken(current)
    ensures AllUnbroken(WordsFrom(current, rest))
    decreases |rest|
  {
    if |rest| > 0 {
      if IsWhitespace(rest[0]) {
        WordsAreUnbroken("", rest[1..]);
      } else {
        WordsAreUnbroken(current + [rest[0]], rest[1..]);
      }
    }
  }

  lemma {:induction false} SplitIsUnbroken(w: Widths, current: string, rest: string, width: nat)
    requires |current + rest| > 0 ==> Unbroken(current + rest)
    ensures AllUnbroken(SplitFrom(w, current, rest, width))
    decreases |rest|
  {
    assert current == (current + rest)[..|current|];
    if |rest| > 0 {
      var more := current + [rest[0]];
      assert more + rest[1..] == current + rest && rest == (current + rest)[|current|..] == [rest[0]] + rest[1..];
      if |current| > 0 && Sum(w, current) + w.ofChar(rest[0]) > width {
        SplitIsUnbroken(w, [rest[0]], rest[1..], width);
      } else {
        SplitIsUnbroken(w, more, rest[1..], width);
      }
    }
  }

  lemma {:induction false} PiecesAreUnbroken(w: Widths, words: seq<string>, width: nat)
    requires AllUnbroken(words)
    ensures AllUnbroken(PiecesOf(w, words, width))
  {
    if |words| > 0 {
      var last := words[|words| - 1];
      PiecesAreUnbroken(w, words[..|words| - 1], width);
      assert "" + last == last;
      SplitIsUnbroken(w, "", last, width);
    }
  }

  predicate AllTakeCells(w: Widths, pieces: seq<string>) {
    forall i :: 0 <= i < |pieces| ==> w.ofText(pieces[i]) > 0
  }

  lemma SomeCells(w: Widths, group: seq<string>)
    requires |group| > 0 && AllTakeCells(w, group)
    ensures Cells(w, group) > 0
  {
  }

  lemma WordBehind(line: string, last: string)
    requires Unbroken(last)
    ensures WordsFrom("", line + " " + last) == WordsFrom("", line) + [last]
    ensures WordsFrom("", last) == [last]
  {
    assert "" + last == last;
    OneWord("", last);
    WordsSplit("", line, ' ', last);
    assert line + " " + last == line + [' '] + last;
  }

  lemma JoinedIs(w: Widths, group: seq<string>)
    requires |group| > 0 && AllTakeCells(w, group)
    ensures var (front, last) := (group[..|group| - 1], group[|group| - 1]);
            Joined(w, group) == if |front| == 0 then last else Joined(w, front) + " " + last
  {
    var front, last := group[..|group| - 1], group[|group| - 1];
    if |front| > 0 {
      SomeCells(w, front);
    } else {
      assert "" + "" + last == last;
    }
  }

  /** The words of a line are its pieces: there is white space between any two. */
  lemma {:induction false} LineWords(w: Widths, group: seq<string>)
    requires AllUnbroken(group) && AllTakeCells(w, group)
    ensures WordsFrom("", Joined(w, group)) == group
  {
    if |group| > 0 {
      var front, last := group[..|group| - 1], group[|group| - 1];
      LineWords(w, front);
      JoinedIs(w, group);
      WordBehind(Joined(w, front), last);
      assert front + [last] == group;
    }
  }

  function WordsOf(lines: seq<string>): seq<string> {
    if |lines| == 0 then [] else WordsFrom("", lines[0]) + WordsOf(lines[1..])
  }

  lemma {:induction false} LinesWords(w: Widths, groups: seq<seq<string>>)
    requires AllUnbroken(Flat(groups)) && AllTakeCells(w, Flat(groups))
    ensures WordsOf(LinesOf(w, groups)) == Flat(groups)
  {
    if |groups| > 0 {
      var rest := Flat(groups[1..]);
      assert groups[0] == Flat(groups)[..|groups[0]|] && rest == Flat(groups)[|groups[0]|..];
      LineWords(w, groups[0]);
      LinesWords(w, groups[1..]);
      assert LinesOf(w, groups)[1..] == LinesOf(w, groups[1..]);
    }
  }

  lemma WordsOfOne(line: string)
    ensures WordsOf([line]) == WordsFrom("", line)
  {
    var lines := [line];
    assert |lines[1..]| == 0;
    assert WordsFrom("", line) + [] == WordsFrom("", line);
  }

  /** The words of the filled lines, or of the one empty line if there are none. */
  lemma FilledWords(w: Widths, pieces: seq<string>, width: nat)
    requires AllUnbroken(pieces) && AllTakeCells(w, pieces)
    ensures var lines := LinesOf(w, Groups(w, [], pieces, width));
            WordsOf(if |lines| == 0 then [""] else lines) == pieces
  {
    var groups := Groups(w, [], pieces, width);
    GroupsAreFilled(w, [], pieces, width);
    assert [] + pieces == pieces;
    LinesWords(w, groups);
    WordsOfOne("");
  }

  lemma TextPieces(w: Widths, text: string, width: nat)
    ensures AllUnbroken(PiecesOf(w, WordsFrom("", text), width))
    ensures EachFits(w, WordsFrom("", text), width) ==> PiecesOf(w, WordsFrom("", text), width) == WordsFrom("", text)
  {
    var words := WordsFrom("", text);
    WordsAreUnbroken("", text);
    PiecesAreUnbroken(w, words, width);
    if EachFits(w, words, width) {
      FittingWordsStay(w, words, width);
    }
  }

  /** The words of a text that fit are the words of its lines, in order, and those that do not are in the pieces
      they are split into, if each takes some cell. */
  lemma WrappingKeepsWords(w: Widths, text: string, maxWidth: nat)
    ensures var width := if maxWidth == 0 then 1 else maxWidth;
            var pieces := PiecesOf(w, WordsFrom("", text), width);
            && (AllTakeCells(w, pieces) ==>
                  WordsOf(Wrapped(w, text, maxWidth)) == if w.ofText(text) <= width then WordsFrom("", text) else pieces)
            && (EachFits(w, WordsFrom("", text), width) ==> pieces == WordsFrom("", text))
  {
    var width := if maxWidth == 0 then 1 else maxWidth;
    var pieces := PiecesOf(w, WordsFrom("", text), width);
    TextPieces(w, text, width);
    WordsOfOne(text);
    if AllTakeCells(w, pieces) {
      FilledWords(w, pieces, width);
    }
  }

  lemma {:induction false} FittingWordsStay(w: Widths, words: seq<string>, width: nat)
    requires EachFits(w, words, width)
    ensures PiecesOf(w, words, width) == words
  {
    if |words| > 0 {
      FittingWordsStay(w, words[..|words| - 1], width);
      assert words[..|words| - 1] + [words[|words| - 1]] == words;
    }
  }

  // ---- lines fit

  /** Every character is white space or narrow enough. */
  predicate Narrow(w: Widths, s: string, width: nat) {
    forall i :: 0 <= i < |s| ==> IsWhitespace(s[i]) || w.ofChar(s[i]) <= width
  }

  predicate EachFits(w: Widths, lines: seq<string>, width: nat) {
    forall i :: 0 <= i < |lines| ==> w.ofText(lines[i]) <= width
  }

  predicate EachOver(alphabet: set<char>, lines: seq<string>) {
    forall i :: 0 <= i < |lines| ==> Over(alphabet, lines[i])
  }

  /** Every character is white space or in the alphabet. */
  predicate VisibleOver(alphabet: set<char>, s: string) {
    forall i :: 0 <= i < |s| ==> IsWhitespace(s[i]) || s[i] in alphabet
  }

  lemma {:induction false} WordsAreOver(alphabet: set<char>, current: string, rest: string)
    requires Over(alphabet, current) && VisibleOver(alphabet, rest)
    ensures EachOver(alphabet, WordsFrom(current, rest))
    decreases |rest|
  {
    if |rest| > 0 {
      if IsWhitespace(rest[0]) {
        WordsAreOver(alphabet, "", rest[1..]);
      } else {
        WordsAreOver(alphabet, current + [rest[0]], rest[1..]);
      }
    }
  }

  lemma {:induction false} SplitIsOver(w: Widths, alphabet: set<char>, current: string, rest: string, width: nat)
    requires Over(alphabet, current) && Over(alphabet, rest)
    ensures EachOver(alphabet, SplitFrom(w, current, rest, width))
    decreases |rest|
  {
    if |rest| > 0 {
      if |current| > 0 && Sum(w, current) + w.ofChar(rest[0]) > width {
        SplitIsOver(w, alphabet, [rest[0]], rest[1..], width);
      } else {
        SplitIsOver(w, alphabet, current + [rest[0]], rest[1..], width);
      }
    }
  }

  lemma {:induction false} PiecesAreOver(w: Widths, alphabet: set<char>, words: seq<string>, width: nat)
    requires EachOver(alphabet, words)
    ensures EachOver(alphabet, PiecesOf(w, words, width))
  {
    if |words| > 0 {
      PiecesAreOver(w, alphabet, words[..|words| - 1], width);
      SplitIsOver(w, alphabet, "", words[|words| - 1], width);
    }
  }

  /** What is joined is no wider than the cells counted for it. */
  lemma {:induction false} JoinedWithinCells(w: Widths, alphabet: set<char>, group: seq<string>)
    requires Measures(w, alphabet) && EachOver(alphabet, group)
    ensures Over(alphabet, Joined(w, group)) && w.ofText(Joined(w, group)) <= Cells(w, group)
  {
    if |group| > 0 {
      var front, last := group[..|group| - 1], group[|group| - 1];
      JoinedWithinCells(w, alphabet, front);
      var line, space := Joined(w, front), if Cells(w, front) > 0 then " " else "";
      assert " " == [' '];
      assert Joins(w, alphabet, line, space) && Joins(w, alphabet, line + space, last);
    }
  }

  lemma {:induction false} LinesAreOver(w: Widths, alphabet: set<char>, group: seq<string>, rest: seq<string>, width: nat)
    requires Measures(w, alphabet) && EachOver(alphabet, group) && EachOver(alphabet, rest)
    ensures EachOver(alphabet, LinesOf(w, Groups(w, group, rest, width)))
    decreases |rest|
  {
    JoinedWithinCells(w, alphabet, group);
    if |rest| > 0 {
      if StartsLine(w, group, rest[0], width) {
        LinesAreOver(w, alphabet, [rest[0]], rest[1..], width);
      } else {
        LinesAreOver(w, alphabet, group + [rest[0]], rest[1..], width);
      }
    }
  }

  lemma {:induction false} SplitFits(w: Widths, alphabet: set<char>, current: string, rest: string, width: nat)
    requires Measures(w, alphabet) && Over(alphabet, current) && Over(alphabet, rest)
    requires Sum(w, current) <= width && forall i :: 0 <= i < |rest| ==> w.ofChar(rest[i]) <= width
    ensures EachFits(w, SplitFrom(w, current, rest, width), width)
    decreases |rest|
  {
    TextWithinSum(w, alphabet, current);
    if |rest| > 0 {
      SumConcat(w, current, [rest[0]]);
      if |current| > 0 && Sum(w, current) + w.ofChar(rest[0]) > width {
        SplitFits(w, alphabet, [rest[0]], rest[1..], width);
      } else {
        SplitFits(w, alphabet, current + [rest[0]], rest[1..], width);
      }
    }
  }

  lemma {:induction false} PiecesFit(w: Widths, alphabet: set<char>, narrow: set<char>, words: seq<string>, width: nat)
    requires Measures(w, alphabet) && narrow <= alphabet && forall c :: c in narrow ==> w.ofChar(c) <= width
    requires EachOver(narrow, words)
    ensures EachFits(w, PiecesOf(w, words, width), width)
  {
    if |words| > 0 {
      PiecesFit(w, alphabet, narrow, words[..|words| - 1], width);
      SplitFits(w, alphabet, "", words[|words| - 1], width);
    }
  }

  lemma {:induction false} GroupsFit(w: Widths, alphabet: set<char>, group: seq<string>, rest: seq<string>, width: nat)
    requires Measures(w, alphabet) && EachOver(alphabet, group) && EachOver(alphabet, rest)
    requires Cells(w, group) <= width && EachFits(w, rest, width)
    ensures EachFits(w, LinesOf(w, Groups(w, group, rest, width)), width)
    decreases |rest|
  {
    JoinedWithinCells(w, alphabet, group);
    if |rest| > 0 {
      JoinedMore(w, group, rest[0]);
      JoinedMore(w, [], rest[0]);
      assert [] + [rest[0]] == [rest[0]];
      if StartsLine(w, group, rest[0], width) {
        GroupsFit(w, alphabet, [rest[0]], rest[1..], width);
      } else {
        GroupsFit(w, alphabet, group + [rest[0]], rest[1..], width);
      }
    }
  }

  lemma NarrowConcat(w: Widths, a: string, b: string, width: nat)
    ensures Narrow(w, a + b, width) <==> Narrow(w, a, width) && Narrow(w, b, width)
  {
    assert Narrow(w, a + b, width) ==> Narrow(w, b, width) by {
      assert forall i :: 0 <= i < |b| ==> b[i] == (a + b)[|a| + i];
    }
    assert Narrow(w, a + b, width) ==> Narrow(w, a, width) by {
      assert forall i :: 0 <= i < |a| ==> a[i] == (a + b)[i];
    }
  }

  lemma {:induction false} NarrowIsVisible(w: Widths, s: string, width: nat)
    ensures Narrow(w, s, width) <==> Narrow(w, Visible(s), width)
  {
    if |s| > 0 {
      NarrowIsVisible(w, s[1..], width);
      assert s == [s[0]] + s[1..];
      NarrowConcat(w, [s[0]], s[1..], width);
      NarrowConcat(w, if IsWhitespace(s[0]) then "" else [s[0]], Visible(s[1..]), width);
    }
  }

  lemma {:induction false} FittingLinesAreNarrow(w: Widths, alphabet: set<char>, lines: seq<string>, width: nat)
    requires Measures(w, alphabet) && EachOver(alphabet, lines) && EachFits(w, lines, width)
    ensures Narrow(w, Concat(lines), width)
  {
    if |lines| > 0 {
      assert Covers(w, alphabet, lines[0]);
      FittingLinesAreNarrow(w, alphabet, lines[1..], width);
      NarrowConcat(w, lines[0], Concat(lines[1..]), width);
    }
  }

  /** The lines of a text that was too wide are over the alphabet of its visible characters, and, if those are
      narrow, fit. */
  lemma FilledLines(w: Widths, alphabet: set<char>, text: string, width: nat)
    requires Measures(w, alphabet) && VisibleOver(alphabet, text)
    ensures var lines := LinesOf(w, Groups(w, [], PiecesOf(w, WordsFrom("", text), width), width));
            EachOver(alphabet, lines) && (Narrow(w, text, width) ==> EachFits(w, lines, width))
  {
    var words := WordsFrom("", text);
    WordsAreOver(alphabet, "", text);
    PiecesAreOver(w, alphabet, words, width);
    LinesAreOver(w, alphabet, [], PiecesOf(w, words, width), width);
    if Narrow(w, text, width) {
      var narrow := set c | c in alphabet && w.ofChar(c) <= width;
      WordsAreOver(narrow, "", text);
      PiecesFit(w, alphabet, narrow, words, width);
      GroupsFit(w, alphabet, [], PiecesOf(w, words, width), width);
    }
  }

  /** If the tables agree on the visible characters of a text, every line fits exactly when the whole text does or
      every character that is not white space does; tabs and newlines may be among the white space. If they agree
      on the white space too, the whole text fits only if its characters do. */
  lemma WrappedFits(w: Widths, alphabet: set<char>, text: string, maxWidth: nat)
    requires Measures(w, alphabet) && VisibleOver(alphabet, text)
    ensures var width := if maxWidth == 0 then 1 else maxWidth;
            && (EachFits(w, Wrapped(w, text, maxWidth), width) <==> w.ofText(text) <= width || Narrow(w, text, width))
            && (Over(alphabet, text) && w.ofText(text) <= width ==> Narrow(w, text, width))
  {
    var width := if maxWidth == 0 then 1 else maxWidth;
    var lines := Wrapped(w, text, maxWidth);
    FilledLines(w, alphabet, text, width);
    if w.ofText(text) > width && EachFits(w, lines, width) {
      FittingLinesAreNarrow(w, alphabet, lines, width);
      WrappingKeepsVisible(w, text, maxWidth);
      NarrowIsVisible(w, text, width);
      NarrowIsVisible(w, Concat(lines), width);
    }
    assert Covers(w, alphabet, text);
  }
}
