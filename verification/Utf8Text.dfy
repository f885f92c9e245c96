/** Text as bytes: UTF-8, and where it may be cut. */
module Utf8Text {
  import opened BoundedTail
  import opened Collections

  /** UTF-8, RFC 3629 section 3. */
  function Utf8Char(c: char): seq<byte> {
    var n := c as int;
    if n < 0x80 then [n]
    else if n < 0x800 then [0xC0 + n / 64, 0x80 + n % 64]
    else if n < 0x10000 then [0xE0 + n / 4096, 0x80 + n / 64 % 64, 0x80 + n % 64]
    else [0xF0 + n / 262144, 0x80 + n / 4096 % 64, 0x80 + n / 64 % 64, 0x80 + n % 64]
  }

  function Utf8(s: string): seq<byte> {
    if s == [] then [] else Utf8(s[..|s| - 1]) + Utf8Char(s[|s| - 1])
  }

  /** Every string is well formed in UTF-8, so the bounds above apply to all text. */
  lemma {:induction false} Utf8IsWellFormed(s: string)
    ensures WellFormed(Utf8(s))
  {
    if s != [] {
      Utf8IsWellFormed(s[..|s| - 1]);
      Utf8CharIsWellFormed(s[|s| - 1]);
      WellFormedConcat(Utf8(s[..|s| - 1]), Utf8Char(s[|s| - 1]));
    }
  }

  lemma Utf8CharIsWellFormed(c: char)
    ensures WellFormed(Utf8Char(c))
  {
    var bytes := Utf8Char(c);
    assert |bytes| > 1 ==> bytes[0] >= 0xC0;
    assert forall i :: 1 <= i < |bytes| ==> bytes[i] >= 0x80;
  }

  /** The bytes of some text. */
  ghost predicate IsUtf8(s: seq<byte>) {
    exists t :: Utf8(t) == s
  }

  // ---- one character

  /** The length of a character, as its first byte tells. */
  function CharLength(lead: byte): nat {
    if lead < 0x80 then 1 else if lead < 0xE0 then 2 else if lead < 0xF0 then 3 else 4
  }

  predicate IsOneChar(bytes: seq<byte>) {
    |bytes| > 0 && !IsContinuation(bytes[0]) && forall i :: 1 <= i < |bytes| ==> IsContinuation(bytes[i])
  }

  lemma CharShape(c: char)
    ensures var bytes := Utf8Char(c);
            |bytes| == CharLength(bytes[0]) && IsOneChar(bytes)
  {
  }

  lemma Utf8OneMore(t: string, c: char)
    ensures Utf8(t + [c]) == Utf8(t) + Utf8Char(c)
  {
    assert (t + [c])[..|t|] == t;
  }

  lemma LastLead(a: seq<byte>, q: seq<byte>)
    requires IsOneChar(q)
    ensures !IsContinuation((a + q)[|a|]) && forall i :: |a| < i < |a + q| ==> IsContinuation((a + q)[i])
  {
  }

  /** Two readings of the end of a text as one character are the same. */
  lemma SameLastChar(a: seq<byte>, q: seq<byte>, b: seq<byte>, e: seq<byte>)
    requires a + q == b + e && IsOneChar(q) && IsOneChar(e)
    ensures q == e
  {
    LastLead(a, q);
    LastLead(b, e);
    assert |a| == |b|;
    assert q == (a + q)[|a|..] && e == (b + e)[|b|..];
  }

  /** A text with the front of a character behind it is not a text. */
  lemma CutCharIsNoText(t: string, c: char, j: nat)
    requires 0 < j < |Utf8Char(c)|
    ensures !IsUtf8(Utf8(t) + Utf8Char(c)[..j])
  {
    var q := Utf8Char(c)[..j];
    CharShape(c);
    if u :| Utf8(u) == Utf8(t) + q {
      var front, last := u[..|u| - 1], u[|u| - 1];
      CharShape(last);
      SameLastChar(Utf8(t), q, Utf8(front), Utf8Char(last));
      assert false;
    }
  }

  // ---- cutting and joining

  /** The front of a text is a text exactly when it ends at a character boundary. */
  lemma {:induction false} FrontIsText(t: string, k: nat)
    requires k <= |Utf8(t)|
    ensures IsUtf8(Utf8(t)[..k]) <==> IsCharBoundary(Utf8(t), k)
  {
    if t == [] {
      assert Utf8(t)[..k] == Utf8(t);
    } else {
      var front, c := t[..|t| - 1], t[|t| - 1];
      var a, e := Utf8(front), Utf8Char(c);
      CharShape(c);
      if k <= |a| {
        FrontIsText(front, k);
        assert (a + e)[..k] == a[..k];
      } else if k == |a + e| {
        assert (a + e)[..k] == Utf8(t);
      } else {
        assert (a + e)[..k] == a + e[..k - |a|] && (a + e)[k] == e[k - |a|];
        CutCharIsNoText(front, c, k - |a|);
      }
    }
  }

  lemma {:induction false} BackIsText(t: string, k: nat)
    requires k <= |Utf8(t)| && IsCharBoundary(Utf8(t), k)
    ensures IsUtf8(Utf8(t)[k..])
  {
    if k == |Utf8(t)| {
      assert Utf8(t)[k..] == Utf8([]);
    } else {
      var front, c := t[..|t| - 1], t[|t| - 1];
      var a, e := Utf8(front), Utf8Char(c);
      CharShape(c);
      LastLead(a, e);
      if k <= |a| {
        BackIsText(front, k);
        var u :| Utf8(u) == a[k..];
        Utf8OneMore(u, c);
        assert (a + e)[k..] == a[k..] + e;
      }
    }
  }

  lemma {:induction false} Utf8Concat(a: string, b: string)
    ensures Utf8(a + b) == Utf8(a) + Utf8(b)
  {
    if |b| > 0 {
      var front, c := b[..|b| - 1], b[|b| - 1];
      Utf8Concat(a, front);
      Utf8Push(a, front, c, Utf8(a), Utf8(front));
      assert b == front + [c];
    } else {
      assert a + b == a;
      assert Utf8(a) + Utf8(b) == Utf8(a);
    }
  }

  lemma Utf8Push(a: string, front: string, c: char, bytes: seq<byte>, more: seq<byte>)
    requires Utf8(a + front) == bytes + more && Utf8(front) == more
    ensures Utf8(a + (front + [c])) == bytes + Utf8(front + [c])
  {
    Utf8OneMore(a + front, c);
    Utf8OneMore(front, c);
    ConcatAssoc(a, front, [c]);
    ConcatAssoc(bytes, more, Utf8Char(c));
  }

  /** Behind an ASCII byte a text can be cut, and only texts give a text. */
  lemma TextsBehindAscii(a: seq<byte>, b: seq<byte>)
    requires a == [] || a[|a| - 1] < 0x80
    ensures IsUtf8(a + b) <==> IsUtf8(a) && IsUtf8(b)
  {
    if t :| Utf8(t) == a + b {
      Utf8IsWellFormed(t);
      assert a != [] ==> (a + b)[|a| - 1] == a[|a| - 1];
      assert IsCharBoundary(a + b, |a|);
      FrontIsText(t, |a|);
      BackIsText(t, |a|);
      assert (a + b)[..|a|] == a && (a + b)[|a|..] == b;
    }
    if IsUtf8(a) && IsUtf8(b) {
      var t :| Utf8(t) == a;
      var u :| Utf8(u) == b;
      Utf8Concat(t, u);
    }
  }
}
