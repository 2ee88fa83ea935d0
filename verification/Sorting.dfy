/**
 Byte-wise string order and sort.Strings. The result of sorting depends only on which strings
 are given, never on the order a Go map happens to yield them in.
 */
module Sorting {

  predicate LessEq(a: string, b: string) {
    a == "" || (b != "" && (a[0] < b[0] || (a[0] == b[0] && LessEq(a[1..], b[1..]))))
  }

  lemma {:induction false} LessEqTotal(a: string, b: string)
    ensures LessEq(a, b) || LessEq(b, a)
  {
    if a != "" && b != "" && a[0] == b[0] {
      LessEqTotal(a[1..], b[1..]);
    }
  }

  lemma {:induction false} LessEqAntisymmetric(a: string, b: string)
    requires LessEq(a, b) && LessEq(b, a)
    ensures a == b
  {
    if a != "" && b != "" {
      LessEqAntisymmetric(a[1..], b[1..]);
      assert a == [a[0]] + a[1..] && b == [b[0]] + b[1..];
    }
  }

  lemma {:induction false} LessEqTransitive(a: string, b: string, c: string)
    requires LessEq(a, b) && LessEq(b, c)
    ensures LessEq(a, c)
  {
    if a != "" && a[0] == b[0] == c[0] {
      LessEqTransitive(a[1..], b[1..], c[1..]);
    }
  }

  /** The strings first differ at i, and a has the smaller byte there. */
  predicate LowerAt(a: string, b: string, i: nat) {
    i < |a| && i < |b| && a[i] < b[i] && forall j | 0 <= j < i :: a[j] == b[j]
  }

  /** A prefix comes first; otherwise the first byte in which the two differ decides. */
  lemma LessEqMeans(a: string, b: string)
    ensures LessEq(a, b) <==> a <= b || exists i: nat :: LowerAt(a, b, i)
  {
    hide LessEq, LowerAt;
    if LessEq(a, b) && !(a <= b) {
      var i := FirstDifference(a, b);
    }
    if a <= b {
      PrefixFirst(a, b);
    }
    if i: nat :| LowerAt(a, b, i) {
      LowerFirst(a, b, i);
    }
  }

  lemma {:induction false} FirstDifference(a: string, b: string) returns (i: nat)
    requires LessEq(a, b) && !(a <= b)
    ensures LowerAt(a, b, i)
  {
    i := 0;
    if a[0] == b[0] {
      assert a == [a[0]] + a[1..] && b == [b[0]] + b[1..];
      var k := FirstDifference(a[1..], b[1..]);
      i := k + 1;
      assert forall j | 0 < j < i :: a[j] == a[1..][j - 1] && b[j] == b[1..][j - 1];
    }
  }

  lemma {:induction false} PrefixFirst(a: string, b: string)
    requires a <= b
    ensures LessEq(a, b)
  {
    if a != "" {
      assert a[0] == b[0] && a[1..] <= b[1..];
      PrefixFirst(a[1..], b[1..]);
    }
  }

  lemma {:induction false} LowerFirst(a: string, b: string, i: nat)
    requires LowerAt(a, b, i)
    ensures LessEq(a, b)
    decreases i
  {
    if i > 0 {
      assert a[0] == b[0];
      assert forall j | 0 <= j < i - 1 :: a[1..][j] == a[j + 1] && b[1..][j] == b[j + 1];
      LowerFirst(a[1..], b[1..], i - 1);
    }
  }

  predicate Sorted(s: seq<string>) {
    forall i, j | 0 <= i < j < |s| :: LessEq(s[i], s[j])
  }

  function Insert(x: string, s: seq<string>): (r: seq<string>)
    requires Sorted(s)
    ensures Sorted(r) && multiset(r) == multiset{x} + multiset(s)
  {
    if s == [] then [x]
    else if LessEq(x, s[0]) then
      assert Sorted([x] + s) by {
        forall j | 0 <= j < |s| ensures LessEq(x, s[j]) {
          if 0 < j { LessEqTransitive(x, s[0], s[j]); }
        }
      }
      [x] + s
    else
      var rest := Insert(x, s[1..]);
      assert s == [s[0]] + s[1..];
      assert Sorted([s[0]] + rest) by {
        forall j | 0 <= j < |rest| ensures LessEq(s[0], rest[j]) {
          LessEqTotal(x, s[0]);
          assert rest[j] in multiset(rest);
          assert rest[j] == x || rest[j] in s[1..];
        }
      }
      [s[0]] + rest
  }

  /** sort.Strings, as a function of the slice's contents. */
  function SortStrings(s: seq<string>): (r: seq<string>)
    ensures Sorted(r) && multiset(r) == multiset(s)
  {
    if s == [] then []
    else
      assert s == [s[0]] + s[1..];
      Insert(s[0], SortStrings(s[1..]))
  }

  lemma HeadLeast(s: seq<string>, x: string)
    requires Sorted(s) && x in s
    ensures LessEq(s[0], x)
  {
    hide LessEq;
    LessEqTotal(x, x);
  }

  lemma TailOf(s: seq<string>)
    requires s != []
    ensures multiset(s[1..]) == multiset(s) - multiset{s[0]}
  {
    assert s == [s[0]] + s[1..];
  }

  lemma TailSorted(s: seq<string>)
    requires s != [] && Sorted(s)
    ensures Sorted(s[1..])
  {
    hide LessEq;
  }

  lemma {:induction false} SortedUnique(a: seq<string>, b: seq<string>)
    requires Sorted(a) && Sorted(b) && multiset(a) == multiset(b)
    ensures a == b
  {
    hide LessEq, Sorted;
    assert |multiset(a)| == |a| && |multiset(b)| == |b|;
    if a != [] {
      assert a[0] in multiset(a) && a[0] in b;
      assert b[0] in multiset(b) && b[0] in a;
      HeadLeast(a, b[0]);
      HeadLeast(b, a[0]);
      LessEqAntisymmetric(a[0], b[0]);
      TailOf(a);
      TailOf(b);
      TailSorted(a);
      TailSorted(b);
      SortedUnique(a[1..], b[1..]);
      assert a == [a[0]] + a[1..] && b == [b[0]] + b[1..];
    }
  }

  lemma SortIgnoresOrder(a: seq<string>, b: seq<string>)
    requires multiset(a) == multiset(b)
    ensures SortStrings(a) == SortStrings(b)
  {
    SortedUnique(SortStrings(a), SortStrings(b));
  }

  /** A sequence that lists each element of a set exactly once, in any order. */
  ghost predicate Lists<T>(s: seq<T>, elements: set<T>) {
    multiset(s) == multiset(elements)
  }

  lemma ListsMembers<T>(s: seq<T>, elements: set<T>)
    requires Lists(s, elements)
    ensures |s| == |elements|
    ensures forall x :: x in s <==> x in elements
    ensures forall i, j | 0 <= i < j < |s| :: s[i] != s[j]
  {
    assert forall x :: x in s <==> x in multiset(s);
    assert |multiset(s)| == |s|;
    forall i, j | 0 <= i < j < |s| ensures s[i] != s[j] {
      assert s == s[..j] + [s[j]] + s[j + 1..];
      assert multiset(s) == multiset(s[..j]) + multiset{s[j]} + multiset(s[j + 1..]);
      assert s[i] == s[..j][i] && s[..j][i] in multiset(s[..j]);
      assert multiset(s)[s[j]] == 1;
    }
  }
}
