/** Iteration in key order, as ordered sets and maps give it. */
module SortedIds {
  import opened Graphs

  /** Lexicographic order on strings. */
  predicate Less(a: string, b: string) {
    b != [] && (a == [] || a[0] < b[0] || (a[0] == b[0] && Less(a[1..], b[1..])))
  }

  lemma {:induction false} LessTotal(a: string, b: string)
    ensures a == b || Less(a, b) || Less(b, a)
  {
    if a != [] && b != [] && a[0] == b[0] {
      LessTotal(a[1..], b[1..]);
      assert a == [a[0]] + a[1..] && b == [b[0]] + b[1..];
    }
  }

  lemma {:induction false} LessTrans(a: string, b: string, c: string)
    requires Less(a, b) && Less(b, c)
    ensures Less(a, c)
  {
    if a != [] && a[0] == b[0] && b[0] == c[0] {
      LessTrans(a[1..], b[1..], c[1..]);
    }
  }

  lemma {:induction false} LessIrreflexive(a: string)
    ensures !Less(a, a)
  {
    if a != [] {
      LessIrreflexive(a[1..]);
    }
  }

  ghost predicate Sorted(s: seq<string>) {
    forall i, j :: 0 <= i < j < |s| ==> Less(s[i], s[j])
  }

  lemma SortedIsDistinct(s: seq<string>)
    requires Sorted(s)
    ensures Distinct(s)
  {
    forall i, j | 0 <= i < j < |s|
      ensures s[i] != s[j]
    {
      LessIrreflexive(s[i]);
    }
  }

  method Least(s: set<string>) returns (m: string)
    requires s != {}
    ensures m in s && forall x :: x in s && x != m ==> Less(m, x)
  {
    m :| m in s;
    var seen := {m};
    while seen != s
      invariant m in seen && seen <= s
      invariant forall x :: x in seen && x != m ==> Less(m, x)
      decreases s - seen
    {
      assert s - seen != {} by {
        assert seen + (s - seen) == s;
      }
      var x :| x in s - seen;
      LessTotal(m, x);
      if Less(x, m) {
        forall y | y in seen && y != m
          ensures Less(x, y)
        {
          LessTrans(x, m, y);
        }
        m := x;
      }
      seen := seen + {x};
    }
  }

  method InOrder(s: set<string>) returns (r: seq<string>)
    ensures Members(r) == s && Sorted(r) && Distinct(r)
  {
    r := [];
    var rest := s;
    while rest != {}
      invariant rest <= s && Members(r) == s - rest && Sorted(r)
      invariant forall i, x :: 0 <= i < |r| && x in rest ==> Less(r[i], x)
      decreases rest
    {
      var m := Least(rest);
      forall i, x | 0 <= i < |r + [m]| && x in rest - {m}
        ensures Less((r + [m])[i], x)
      {
      }
      MembersAppend(r, m);
      r, rest := r + [m], rest - {m};
    }
    SortedIsDistinct(r);
  }
}
