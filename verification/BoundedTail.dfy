/** Tails of a text bounded in bytes and in lines, kept while the text streams in. */
module BoundedTail {

  type byte = x: int | 0 <= x < 256

  const NEWLINE: byte := 10
  const RETURN: byte := 13

  predicate IsContinuation(b: byte) {
    0x80 <= b < 0xC0
  }

  /** What every UTF-8 text satisfies: a continuation byte follows a non-ASCII byte. */
  ghost predicate WellFormed(text: seq<byte>) {
    forall i :: 0 <= i < |text| && IsContinuation(text[i]) ==> i > 0 && text[i - 1] >= 0x80
  }

  predicate IsCharBoundary(text: seq<byte>, i: nat) {
    i == 0 || i == |text| || (i < |text| && !IsContinuation(text[i]))
  }

  /** The lines of a text; a final newline does not open another line. */
  function Lines(text: seq<byte>): nat {
    if text == [] then 0
    else if text[0] == NEWLINE then 1 + Lines(text[1..])
    else if |text| == 1 then 1
    else Lines(text[1..])
  }

  // ---- the specification: the longest suffix within both bounds

  ghost predicate Fits(text: seq<byte>, i: nat, maxBytes: nat, maxLines: nat) {
    i <= |text| && IsCharBoundary(text, i) && |text| - i <= maxBytes && Lines(text[i..]) <= maxLines
  }

  ghost predicate Before(text: seq<byte>, i: nat, maxBytes: nat, maxLines: nat) {
    forall j: nat :: j < i ==> !Fits(text, j, maxBytes, maxLines)
  }

  ghost predicate IsCut(text: seq<byte>, i: nat, maxBytes: nat, maxLines: nat) {
    Fits(text, i, maxBytes, maxLines) && Before(text, i, maxBytes, maxLines)
  }

  lemma CutExists(text: seq<byte>, i: nat, maxBytes: nat, maxLines: nat)
    requires i <= |text| && Before(text, i, maxBytes, maxLines)
    ensures exists cut :: IsCut(text, cut, maxBytes, maxLines)
    decreases |text| - i
  {
    if Fits(text, i, maxBytes, maxLines) {
      assert IsCut(text, i, maxBytes, maxLines);
    } else {
      CutExists(text, i + 1, maxBytes, maxLines);
    }
  }

  ghost function Cut(text: seq<byte>, maxBytes: nat, maxLines: nat): (cut: nat)
    ensures IsCut(text, cut, maxBytes, maxLines)
  {
    CutExists(text, 0, maxBytes, maxLines);
    var cut :| IsCut(text, cut, maxBytes, maxLines);
    cut
  }

  /** The longest suffix of the text that starts at a character boundary and is within both bounds. */
  ghost function Tail(text: seq<byte>, maxBytes: nat, maxLines: nat): (tail: seq<byte>)
    ensures |tail| <= maxBytes && Lines(tail) <= maxLines
    ensures |tail| <= |text| && tail == text[|text| - |tail|..]
  {
    text[Cut(text, maxBytes, maxLines)..]
  }

  lemma CutIsTail(text: seq<byte>, i: nat, maxBytes: nat, maxLines: nat)
    requires IsCut(text, i, maxBytes, maxLines)
    ensures Tail(text, maxBytes, maxLines) == text[i..]
  {
    var cut := Cut(text, maxBytes, maxLines);
    assert !(cut < i) && !(i < cut);
  }

  lemma WholeTextWhenItFits(text: seq<byte>, maxBytes: nat, maxLines: nat)
    ensures Tail(text, maxBytes, maxLines) == text <==> |text| <= maxBytes && Lines(text) <= maxLines
  {
    assert text[0..] == text;
    if |text| <= maxBytes && Lines(text) <= maxLines {
      assert IsCut(text, 0, maxBytes, maxLines);
      CutIsTail(text, 0, maxBytes, maxLines);
    }
  }

  lemma TailOfEmpty(text: seq<byte>, maxBytes: nat, maxLines: nat)
    requires |text| == 0
    ensures Tail(text, maxBytes, maxLines) == text && WellFormed(text)
  {
    assert |Tail(text, maxBytes, maxLines)| <= |text|;
  }

  // ---- lines

  lemma {:induction false} LinesOfPrefix(a: seq<byte>, b: seq<byte>)
    ensures Lines(a) <= Lines(a + b)
  {
    if a == [] {
    } else {
      assert (a + b)[1..] == a[1..] + b;
      LinesOfPrefix(a[1..], b);
      if |a| == 1 && a[0] != NEWLINE && b != [] {
        SomeLine(b);
        assert a[1..] + b == b;
      }
    }
  }

  lemma {:induction false} SomeLine(text: seq<byte>)
    requires text != []
    ensures Lines(text) >= 1
  {
    if text[0] != NEWLINE && |text| > 1 {
      SomeLine(text[1..]);
    }
  }

  /** Moving the start up to the end of the first line does not change the number of lines. */
  lemma {:induction false} LinesWithinLine(text: seq<byte>, k: nat)
    requires k < |text| && forall i :: 0 <= i < k ==> text[i] != NEWLINE
    ensures Lines(text[k..]) == Lines(text)
  {
    if k == 0 {
      assert text[0..] == text;
    } else {
      assert text[1..][k - 1..] == text[k..];
      LinesWithinLine(text[1..], k - 1);
    }
  }

  ghost function Newlines(text: seq<byte>): nat {
    if text == [] then 0 else (if text[0] == NEWLINE then 1 else 0) + Newlines(text[1..])
  }

  /** Lines are the newlines, and one more for an unterminated last line. */
  lemma {:induction false} LinesCountNewlines(text: seq<byte>)
    ensures Lines(text) == Newlines(text) + if text != [] && text[|text| - 1] != NEWLINE then 1 else 0
  {
    if |text| > 1 {
      LinesCountNewlines(text[1..]);
    }
  }

  // ---- the operation

  method FindNewline(text: seq<byte>) returns (i: nat)
    ensures i <= |text| && (i < |text| ==> text[i] == NEWLINE)
    ensures forall j :: 0 <= j < i ==> text[j] != NEWLINE
  {
    i := 0;
    while i < |text| && text[i] != NEWLINE
      invariant i <= |text| && forall j :: 0 <= j < i ==> text[j] != NEWLINE
    {
      i := i + 1;
    }
  }

  /** Drops the first line of text[start..], which has too many. */
  lemma DropLine(text: seq<byte>, start: nat, newline: nat, maxBytes: nat, maxLines: nat)
    requires WellFormed(text) && start + newline < |text| && Before(text, start, maxBytes, maxLines)
    requires Lines(text[start..]) > maxLines
    requires text[start + newline] == NEWLINE && forall j :: start <= j < start + newline ==> text[j] != NEWLINE
    ensures Before(text, start + newline + 1, maxBytes, maxLines)
    ensures IsCharBoundary(text, start + newline + 1)
  {
    forall j: nat | start <= j <= start + newline
      ensures !Fits(text, j, maxBytes, maxLines)
    {
      LinesWithinLine(text[start..], j - start);
      assert text[start..][j - start..] == text[j..];
    }
  }

  lemma LinesNeedNewline(text: seq<byte>)
    requires Lines(text) > 1
    ensures exists i :: 0 <= i < |text| && text[i] == NEWLINE
  {
    if forall i :: 0 <= i < |text| ==> text[i] != NEWLINE {
      LinesWithinLine(text, |text| - 1);
    }
  }

  /** Appends text to the retained tail. The result is the tail of the concatenation. */
  method AppendBounded(target: seq<byte>, text: seq<byte>, maxBytes: nat, maxLines: nat) returns (tail: seq<byte>)
    requires WellFormed(target) && WellFormed(text)
    ensures tail == Tail(target + text, maxBytes, maxLines)
    ensures WellFormed(tail)
  {
    ghost var whole := target + text;
    WellFormedConcat(target, text);
    WellFormedSuffix(whole, Cut(whole, maxBytes, maxLines));
    if maxBytes == 0 || maxLines == 0 {
      EmptyTail(whole, maxBytes, maxLines);
      return [];
    }
    tail := target + text;
    ghost var start: nat := 0;
    if |tail| > maxBytes {
      var remove := |tail| - maxBytes;
      while remove < |tail| && !IsCharBoundary(tail, remove)
        invariant |tail| - maxBytes <= remove <= |tail|
        invariant Before(whole, remove, maxBytes, maxLines)
      {
        remove := remove + 1;
      }
      tail := tail[remove..];
      start := remove;
    }
    while Lines(tail) > maxLines
      invariant start <= |whole| && tail == whole[start..] && |tail| <= maxBytes
      invariant IsCharBoundary(whole, start) && Before(whole, start, maxBytes, maxLines)
      decreases |tail|
    {
      var newline := FindNewline(tail);
      LinesNeedNewline(tail);
      if newline == |tail| {
        // More than one line needs a newline, so the tail is never cleared here.
        assert false;
      }
      DropLine(whole, start, newline, maxBytes, maxLines);
      start := start + newline + 1;
      tail := tail[newline + 1..];
    }
    CutIsTail(whole, start, maxBytes, maxLines);
  }

  lemma EmptyTail(text: seq<byte>, maxBytes: nat, maxLines: nat)
    requires maxBytes == 0 || maxLines == 0
    ensures Tail(text, maxBytes, maxLines) == []
  {
    var tail := Tail(text, maxBytes, maxLines);
    if tail != [] {
      SomeLine(tail);
    }
  }

  lemma WellFormedConcat(a: seq<byte>, b: seq<byte>)
    requires WellFormed(a) && WellFormed(b)
    ensures WellFormed(a + b)
  {
    forall i | 0 <= i < |a + b| && IsContinuation((a + b)[i])
      ensures i > 0 && (a + b)[i - 1] >= 0x80
    {
      if i >= |a| {
        assert b[i - |a|] == (a + b)[i];
      }
    }
  }

  lemma WellFormedSuffix(text: seq<byte>, i: nat)
    requires WellFormed(text) && i <= |text| && IsCharBoundary(text, i)
    ensures WellFormed(text[i..])
  {
    forall j | 0 <= j < |text[i..]| && IsContinuation(text[i..][j])
      ensures j > 0 && text[i..][j - 1] >= 0x80
    {
      assert text[i..][j] == text[i + j];
    }
  }

  // ---- streaming

  /** Appending never brings back what was cut off. */
  lemma CutOnlyMovesOn(a: seq<byte>, b: seq<byte>, maxBytes: nat, maxLines: nat, start: nat, cut: nat)
    requires IsCut(a, start, maxBytes, maxLines) && IsCut(a + b, cut, maxBytes, maxLines)
    ensures start <= cut
  {
    if cut < start {
      assert (a + b)[cut..] == a[cut..] + b;
      LinesOfPrefix(a[cut..], b);
      assert Fits(a, cut, maxBytes, maxLines);
    }
  }

  lemma ShiftedFits(text: seq<byte>, start: nat, j: nat, maxBytes: nat, maxLines: nat)
    requires start <= |text| && IsCharBoundary(text, start) && start + j <= |text|
    ensures Fits(text[start..], j, maxBytes, maxLines) <==> Fits(text, start + j, maxBytes, maxLines)
  {
    assert text[start..][j..] == text[start + j..];
  }

  lemma ShiftedCut(text: seq<byte>, start: nat, cut: nat, maxBytes: nat, maxLines: nat)
    requires start <= cut && start <= |text| && IsCharBoundary(text, start) && IsCut(text, cut, maxBytes, maxLines)
    ensures IsCut(text[start..], cut - start, maxBytes, maxLines)
  {
    ShiftedFits(text, start, cut - start, maxBytes, maxLines);
    forall j: nat | j < cut - start
      ensures !Fits(text[start..], j, maxBytes, maxLines)
    {
      ShiftedFits(text, start, j, maxBytes, maxLines);
    }
  }

  /** What was cut off before does not matter: appending to the tail is appending to the whole text. */
  lemma TailOfTail(a: seq<byte>, b: seq<byte>, maxBytes: nat, maxLines: nat)
    requires WellFormed(a) && WellFormed(b)
    ensures Tail(Tail(a, maxBytes, maxLines) + b, maxBytes, maxLines) == Tail(a + b, maxBytes, maxLines)
  {
    var start, cut := Cut(a, maxBytes, maxLines), Cut(a + b, maxBytes, maxLines);
    CutOnlyMovesOn(a, b, maxBytes, maxLines, start, cut);
    BoundaryInFront(a, b, start);
    ShiftedCut(a + b, start, cut, maxBytes, maxLines);
    assert a[start..] + b == (a + b)[start..];
    CutIsTail((a + b)[start..], cut - start, maxBytes, maxLines);
    assert (a + b)[start..][cut - start..] == (a + b)[cut..];
  }

  lemma BoundaryInFront(a: seq<byte>, b: seq<byte>, i: nat)
    requires WellFormed(b) && i <= |a| && IsCharBoundary(a, i)
    ensures IsCharBoundary(a + b, i)
  {
    if i == |a| && b != [] {
      assert (a + b)[i] == b[0];
    }
  }

  ghost predicate AllWellFormed(chunks: seq<seq<byte>>) {
    forall i :: 0 <= i < |chunks| ==> WellFormed(chunks[i])
  }

  ghost function Concat(chunks: seq<seq<byte>>): seq<byte> {
    if chunks == [] then [] else Concat(chunks[..|chunks| - 1]) + chunks[|chunks| - 1]
  }

  lemma ConcatOneMore(chunks: seq<seq<byte>>, i: nat)
    requires i < |chunks|
    ensures Concat(chunks[..i + 1]) == Concat(chunks[..i]) + chunks[i]
  {
    assert chunks[..i + 1][..i] == chunks[..i];
  }

  lemma ConcatAll(chunks: seq<seq<byte>>)
    ensures Concat(chunks[..|chunks|]) == Concat(chunks)
  {
    assert chunks[..|chunks|] == chunks;
  }

  lemma {:induction false} ConcatWellFormed(chunks: seq<seq<byte>>)
    requires AllWellFormed(chunks)
    ensures WellFormed(Concat(chunks))
  {
    if chunks != [] {
      ConcatWellFormed(chunks[..|chunks| - 1]);
      WellFormedConcat(Concat(chunks[..|chunks| - 1]), chunks[|chunks| - 1]);
    }
  }

  lemma TailStep(chunks: seq<seq<byte>>, i: nat, maxBytes: nat, maxLines: nat)
    requires i < |chunks| && AllWellFormed(chunks)
    ensures WellFormed(chunks[i])
    ensures Tail(Tail(Concat(chunks[..i]), maxBytes, maxLines) + chunks[i], maxBytes, maxLines)
         == Tail(Concat(chunks[..i + 1]), maxBytes, maxLines)
  {
    ConcatOneMore(chunks, i);
    ConcatWellFormed(chunks[..i]);
    TailOfTail(Concat(chunks[..i]), chunks[i], maxBytes, maxLines);
  }

  /** Appending any sequence of text chunks one by one leaves the tail of their concatenation:
      it does not matter how the stream was cut into chunks. */
  method AppendChunks(chunks: seq<seq<byte>>, maxBytes: nat, maxLines: nat) returns (tail: seq<byte>)
    requires AllWellFormed(chunks)
    ensures tail == Tail(Concat(chunks), maxBytes, maxLines)
  {
    tail := [];
    NoChunks(chunks, maxBytes, maxLines);
    for i := 0 to |chunks|
      invariant TailOf(tail, chunks, i, maxBytes, maxLines)
    {
      TailStep(chunks, i, maxBytes, maxLines);
      tail := AppendBounded(tail, chunks[i], maxBytes, maxLines);
    }
    ConcatAll(chunks);
  }

  ghost predicate TailOf(tail: seq<byte>, chunks: seq<seq<byte>>, n: nat, maxBytes: nat, maxLines: nat)
    requires n <= |chunks|
  {
    WellFormed(tail) && tail == Tail(Concat(chunks[..n]), maxBytes, maxLines)
  }

  lemma NoChunks(chunks: seq<seq<byte>>, maxBytes: nat, maxLines: nat)
    ensures TailOf([], chunks, 0, maxBytes, maxLines)
  {
    TailOfEmpty(Concat(chunks[..0]), maxBytes, maxLines);
  }
}
