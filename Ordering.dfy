/**
 * Python's `sorted()` on a list of strings: code-point lexicographic order
 * (a proper prefix comes first) and a sort that returns a sorted permutation.
 */
module Ordering {

  /** `a <= b` on Python strings. */
  predicate LexLe(a: string, b: string)
    ensures LexLe(a, b) && a != [] ==> b != [] && a[0] <= b[0]
    ensures a <= b ==> LexLe(a, b)
  {
    a == [] || (b != [] && (a[0] < b[0] || (a[0] == b[0] && LexLe(a[1..], b[1..]))))
  }

  /** Any two strings are comparable. */
  lemma {:induction false} LexTotal(a: string, b: string)
    ensures LexLe(a, b) || LexLe(b, a)
  {
    if a != [] && b != [] && a[0] == b[0] {
      LexTotal(a[1..], b[1..]);
    }
  }

  /** Strings that are `<=` each way are equal. */
  lemma {:induction false} LexAntisymmetric(a: string, b: string)
    requires LexLe(a, b) && LexLe(b, a)
    ensures a == b
  {
    if a != [] {
      LexAntisymmetric(a[1..], b[1..]);
      assert a == [a[0]] + a[1..] && b == [b[0]] + b[1..];
    }
  }

  lemma {:induction false} LexReflexive(a: string)
    ensures LexLe(a, a)
  {
    if a != [] { LexReflexive(a[1..]); }
  }

  lemma {:induction false} LexTransitive(a: string, b: string, c: string)
    requires LexLe(a, b) && LexLe(b, c)
    ensures LexLe(a, c)
  {
    if a != [] && a[0] == b[0] && b[0] == c[0] {
      LexTransitive(a[1..], b[1..], c[1..]);
    }
  }

  predicate Sorted(s: seq<string>)
  {
    forall i, j :: 0 <= i < j < |s| ==> LexLe(s[i], s[j])
  }

  /** Inserts `x` into the sorted list `s` before the first element not below it. */
  function Insert(x: string, s: seq<string>): (r: seq<string>)
    requires Sorted(s)
    ensures Sorted(r)
    ensures multiset(r) == multiset(s) + multiset{x}
  {
    if s == [] then [x]
    else if LexLe(x, s[0]) then InsertAtFront(x, s); [x] + s
    else
      var t := Insert(x, s[1..]);
      InsertBehindHead(x, s, t);
      assert s == [s[0]] + s[1..];
      [s[0]] + t
  }

  lemma InsertAtFront(x: string, s: seq<string>)
    requires Sorted(s) && s != [] && LexLe(x, s[0])
    ensures Sorted([x] + s)
  {
    forall j | 0 <= j < |s| ensures LexLe(x, s[j]) {
      if j > 0 { LexTransitive(x, s[0], s[j]); }
    }
  }

  /** The head of `s` still heads the list once `x`, not below it, is inserted in the tail. */
  lemma InsertBehindHead(x: string, s: seq<string>, t: seq<string>)
    requires Sorted(s) && s != [] && !LexLe(x, s[0])
    requires Sorted(t) && multiset(t) == multiset(s[1..]) + multiset{x}
    ensures Sorted([s[0]] + t)
  {
    LexTotal(x, s[0]);
    forall k | 0 <= k < |t| ensures LexLe(s[0], t[k]) {
      assert t[k] in multiset(t);
      if t[k] != x {
        assert t[k] in s[1..];
        var j :| 1 <= j < |s| && s[j] == t[k];
      }
    }
  }

  /** `sorted(s)`: the elements of `s` in ascending order. */
  function Sort(s: seq<string>): (r: seq<string>)
    ensures Sorted(r)
    ensures multiset(r) == multiset(s)
  {
    if s == [] then []
    else
      assert s == [s[0]] + s[1..];
      Insert(s[0], Sort(s[1..]))
  }

  /** Two sorted lists with the same elements start with the same string. */
  lemma SortedSameHead(a: seq<string>, b: seq<string>)
    requires Sorted(a) && Sorted(b)
    requires multiset(a) == multiset(b) && a != []
    ensures b != [] && a[0] == b[0]
  {
    assert a[0] in multiset(b);
    assert b[0] in multiset(a);
    var i :| 0 <= i < |b| && b[i] == a[0];
    var j :| 0 <= j < |a| && a[j] == b[0];
    if i == 0 { LexReflexive(b[0]); }
    if j == 0 { LexReflexive(a[0]); }
    LexAntisymmetric(a[0], b[0]);
  }

  /** There is only one sorted arrangement of a multiset of strings, so `Sort` is it. */
  lemma {:induction false} SortedUnique(a: seq<string>, b: seq<string>)
    requires Sorted(a) && Sorted(b)
    requires multiset(a) == multiset(b)
    ensures a == b
    decreases |a|
  {
    if a == [] {
      assert |b| == |multiset(b)| == 0;
    } else {
      SortedSameHead(a, b);
      SameTailElements(a, b);
      SortedUnique(a[1..], b[1..]);
      assert a == [a[0]] + a[1..] && b == [b[0]] + b[1..];
    }
  }

  /** Lists with the same elements and the same head have tails with the same elements. */
  lemma SameTailElements(a: seq<string>, b: seq<string>)
    requires a != [] && b != [] && a[0] == b[0]
    requires multiset(a) == multiset(b)
    ensures multiset(a[1..]) == multiset(b[1..])
  {
    assert a == [a[0]] + a[1..] && b == [b[0]] + b[1..];
    assert multiset(a[1..]) == multiset(a) - multiset{a[0]};
    assert multiset(b[1..]) == multiset(b) - multiset{b[0]};
  }

  /** Sorting is independent of the input order: lists with the same elements sort alike. */
  lemma SortDependsOnlyOnElements(s: seq<string>, t: seq<string>)
    requires multiset(s) == multiset(t)
    ensures Sort(s) == Sort(t)
  {
    SortedUnique(Sort(s), Sort(t));
  }
}
