/** Sorting as the source does it: a stable sort, largest key first, and cutting to a limit;
    the order of strings; sizes of sets. */
module Ordering {

  /** A total preorder; `le(x, y)` reads "the key of x is at most the key of y". */
  ghost predicate Total<T(!new)>(le: (T, T) -> bool) {
    && (forall x, y :: le(x, y) || le(y, x))
    && (forall x, y, z :: le(x, y) && le(y, z) ==> le(x, z))
  }

  ghost predicate Descending<T>(le: (T, T) -> bool, s: seq<T>) {
    forall i, j | 0 <= i < j < |s| :: le(s[j], s[i])
  }

  /** Insertion after all elements that are not smaller: the stable place. */
  function Insert<T>(le: (T, T) -> bool, s: seq<T>, x: T): (r: seq<T>)
    ensures |r| == |s| + 1 && multiset(r) == multiset(s) + multiset{x}
  {
    if s == [] then [x]
    else if le(x, s[0]) then
      assert s == [s[0]] + s[1..];
      [s[0]] + Insert(le, s[1..], x)
    else [x] + s
  }

  function Sort<T>(le: (T, T) -> bool, s: seq<T>): (r: seq<T>)
    ensures |r| == |s| && multiset(r) == multiset(s)
  {
    if s == [] then [] else
    assert s == s[..|s| - 1] + [s[|s| - 1]];
    Insert(le, Sort(le, s[..|s| - 1]), s[|s| - 1])
  }

  lemma {:induction false} InsertSorted<T(!new)>(le: (T, T) -> bool, s: seq<T>, x: T)
    requires Total(le) && Descending(le, s)
    ensures Descending(le, Insert(le, s, x))
  {
    if s != [] && le(x, s[0]) {
      InsertSorted(le, s[1..], x);
      var r := Insert(le, s[1..], x);
      forall y | y in r ensures le(y, s[0]) {
        assert y in multiset(r);
        assert y in s[1..] || y == x;
      }
      var t := [s[0]] + r;
      forall i, j | 0 <= i < j < |t| ensures le(t[j], t[i]) {
        assert t[j] == r[j - 1] && r[j - 1] in r;
      }
    }
  }

  lemma {:induction false} SortSorted<T(!new)>(le: (T, T) -> bool, s: seq<T>)
    requires Total(le)
    ensures Descending(le, Sort(le, s))
  {
    if s != [] {
      SortSorted(le, s[..|s| - 1]);
      InsertSorted(le, Sort(le, s[..|s| - 1]), s[|s| - 1]);
    }
  }

  /** A sorted sequence is left alone, so sorting after an append is one insertion. */
  lemma {:induction false} SortOfSorted<T(!new)>(le: (T, T) -> bool, s: seq<T>)
    requires Total(le) && Descending(le, s)
    ensures Sort(le, s) == s
  {
    if s != [] {
      var init, last := s[..|s| - 1], s[|s| - 1];
      DescendingFront(le, s);
      SortOfSorted(le, init);
      InsertLast(le, init, last);
    }
  }

  lemma DescendingFront<T(!new)>(le: (T, T) -> bool, s: seq<T>)
    requires Descending(le, s) && s != []
    ensures var init, last := s[..|s| - 1], s[|s| - 1];
            s == init + [last] && Descending(le, init) && forall y | y in init :: le(last, y)
  {}

  lemma {:induction false} InsertLast<T(!new)>(le: (T, T) -> bool, s: seq<T>, x: T)
    requires forall y | y in s :: le(x, y)
    ensures Insert(le, s, x) == s + [x]
  {
    if s != [] {
      assert s[0] in s;
      InsertLast(le, s[1..], x);
    }
  }

  lemma SortAppend<T(!new)>(le: (T, T) -> bool, s: seq<T>, x: T)
    requires Total(le) && Descending(le, s)
    ensures Sort(le, s + [x]) == Insert(le, s, x)
  {
    assert (s + [x])[..|s|] == s;
    SortOfSorted(le, s);
  }

  function Cut<T>(s: seq<T>, limit: nat): seq<T> { if |s| <= limit then s else s[..limit] }

  // ---------------------------------------------------------------- strings by code unit

  predicate StringLe(a: string, b: string) {
    a == "" || (b != "" && (a[0] < b[0] || (a[0] == b[0] && StringLe(a[1..], b[1..]))))
  }

  /** The first difference decides, and a beginning comes before the whole. */
  lemma {:induction false} FirstDifferenceDecides(start: string, a: string, b: string)
    ensures a == "" ==> StringLe(start + a, start + b)
    ensures a != "" && b != "" && a[0] < b[0] ==> StringLe(start + a, start + b) && !StringLe(start + b, start + a)
    ensures a == "" && b != "" ==> !StringLe(start + b, start + a)
  {
    if start == "" {
      assert start + a == a && start + b == b;
    } else {
      FirstDifferenceDecides(start[1..], a, b);
      assert (start + a)[1..] == start[1..] + a && (start + b)[1..] == start[1..] + b;
    }
  }

  lemma {:induction false} StringTotal(a: string, b: string)
    ensures StringLe(a, b) || StringLe(b, a)
  {
    if a != "" && b != "" {
      StringTotal(a[1..], b[1..]);
    }
  }

  lemma {:induction false} StringTransitive(a: string, b: string, c: string)
    requires StringLe(a, b) && StringLe(b, c)
    ensures StringLe(a, c)
  {
    if a != "" && a[0] == b[0] && b[0] == c[0] {
      StringTransitive(a[1..], b[1..], c[1..]);
    }
  }

  lemma {:induction false} StringAntisymmetric(a: string, b: string)
    requires StringLe(a, b) && StringLe(b, a)
    ensures a == b
  {
    if a != "" {
      StringAntisymmetric(a[1..], b[1..]);
      assert a == [a[0]] + a[1..] && b == [b[0]] + b[1..];
    }
  }

  lemma {:induction false} SmallerSet<T>(a: set<T>, b: set<T>)
    requires a <= b
    ensures |a| <= |b|
  {
    if a != {} {
      var x :| x in a;
      SmallerSet(a - {x}, b - {x});
    }
  }
}
