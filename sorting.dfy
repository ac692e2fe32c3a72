/**
 * Python's `list.sort()` on strings and on lists of strings.  Python compares strings
 * character by character by code point and lists element by element, a shorter
 * sequence coming first when it is a prefix of the longer one; both are total orders,
 * so every sort of a list yields the one sorted permutation of it, whatever algorithm
 * is used.  The model sorts by insertion.
 */
module Sorting {

  /** `le` is a total order on `T`: total, antisymmetric and transitive. */
  ghost predicate TotalOrder<T(!new)>(le: (T, T) -> bool)
  {
    && (forall x, y :: le(x, y) || le(y, x))
    && (forall x, y :: le(x, y) && le(y, x) ==> x == y)
    && (forall x, y, z :: le(x, y) && le(y, z) ==> le(x, z))
  }

  predicate Sorted<T>(s: seq<T>, le: (T, T) -> bool)
  {
    forall i, j :: 0 <= i < j < |s| ==> le(s[i], s[j])
  }

  /** `s` with `x` inserted before the first element that `x` precedes. */
  function Insert<T>(x: T, s: seq<T>, le: (T, T) -> bool): (r: seq<T>)
    ensures multiset(r) == multiset(s) + multiset{x}
    ensures |r| == |s| + 1
  {
    if s == [] then [x]
    else if le(x, s[0]) then [x] + s
    else
      assert s == [s[0]] + s[1..];
      [s[0]] + Insert(x, s[1..], le)
  }

  /** The elements of `s` rearranged in the order `le`. */
  function SortBy<T>(s: seq<T>, le: (T, T) -> bool): (r: seq<T>)
    ensures multiset(r) == multiset(s)
    ensures |r| == |s|
  {
    if s == [] then []
    else
      assert s == [s[0]] + s[1..];
      Insert(s[0], SortBy(s[1..], le), le)
  }

  lemma {:induction false} InsertKeepsSorted<T(!new)>(x: T, s: seq<T>, le: (T, T) -> bool)
    requires TotalOrder(le) && Sorted(s, le)
    ensures Sorted(Insert(x, s, le), le)
  {
    if s != [] && !le(x, s[0]) {
      InsertKeepsSorted(x, s[1..], le);
      var r := Insert(x, s, le);
      forall j | 0 < j < |r| ensures le(r[0], r[j]) {
        assert r[j] in multiset(r[1..]) by { assert r[j] == r[1..][j - 1]; }
        assert multiset(r[1..]) == multiset(s[1..]) + multiset{x};
        if r[j] != x {
          assert r[j] in s[1..];
        }
      }
    }
  }

  /** An insertion sort leaves its result in order. */
  lemma {:induction false} SortBySorted<T(!new)>(s: seq<T>, le: (T, T) -> bool)
    requires TotalOrder(le)
    ensures Sorted(SortBy(s, le), le)
  {
    if s != [] {
      SortBySorted(s[1..], le);
      InsertKeepsSorted(s[0], SortBy(s[1..], le), le);
    }
  }

  lemma SortedFirstLe<T(!new)>(a: seq<T>, x: T, le: (T, T) -> bool)
    requires TotalOrder(le) && Sorted(a, le) && x in a
    ensures le(a[0], x)
  {
    var i :| 0 <= i < |a| && a[i] == x;
    if i == 0 {
      assert le(x, x) || le(x, x);
    } else {
      assert le(a[0], a[i]);
    }
  }

  lemma MultisetOfTail<T>(a: seq<T>)
    requires a != []
    ensures multiset(a[1..]) == multiset(a) - multiset{a[0]}
  {
    assert a == [a[0]] + a[1..];
    assert multiset(a) == multiset{a[0]} + multiset(a[1..]);
  }

  /** Under a total order there is only one sorted arrangement of a multiset. */
  lemma {:induction false} SortedUnique<T(!new)>(a: seq<T>, b: seq<T>, le: (T, T) -> bool)
    requires TotalOrder(le) && Sorted(a, le) && Sorted(b, le) && multiset(a) == multiset(b)
    ensures a == b
    decreases |a|
  {
    assert |a| == |multiset(a)| == |multiset(b)| == |b|;
    if a != [] {
      assert a[0] in multiset(b) && b[0] in multiset(a);
      SortedFirstLe(b, a[0], le);
      SortedFirstLe(a, b[0], le);
      assert a[0] == b[0];
      MultisetOfTail(a);
      MultisetOfTail(b);
      assert Sorted(a[1..], le) && Sorted(b[1..], le);
      SortedUnique(a[1..], b[1..], le);
      assert a == [a[0]] + a[1..] && b == [b[0]] + b[1..];
    }
  }

  /** Sorting depends only on the multiset of elements, not on their arrival order. */
  lemma SortByIgnoresOrder<T(!new)>(s: seq<T>, t: seq<T>, le: (T, T) -> bool)
    requires TotalOrder(le) && multiset(s) == multiset(t)
    ensures SortBy(s, le) == SortBy(t, le)
  {
    SortBySorted(s, le);
    SortBySorted(t, le);
    SortedUnique(SortBy(s, le), SortBy(t, le), le);
  }

  /** Sorting a sorted list changes nothing; in particular sorting twice is sorting once. */
  lemma SortBySortedIsIdentity<T(!new)>(s: seq<T>, le: (T, T) -> bool)
    requires TotalOrder(le) && Sorted(s, le)
    ensures SortBy(s, le) == s
  {
    SortBySorted(s, le);
    SortedUnique(SortBy(s, le), s, le);
  }

  // ---------------------------------------------------------------------------
  // Lexicographic order

  /** Python's comparison `a <= b` of two sequences whose elements are ordered by `le`. */
  function LexLe<T(==)>(a: seq<T>, b: seq<T>, le: (T, T) -> bool): (r: bool)
  {
    if a == [] then true
    else if b == [] then false
    else if a[0] == b[0] then LexLe(a[1..], b[1..], le)
    else le(a[0], b[0])
  }

  lemma {:induction false} LexTotal<T(!new)>(a: seq<T>, b: seq<T>, le: (T, T) -> bool)
    requires TotalOrder(le)
    ensures LexLe(a, b, le) || LexLe(b, a, le)
  {
    if a != [] && b != [] && a[0] == b[0] {
      LexTotal(a[1..], b[1..], le);
    }
  }

  lemma {:induction false} LexAntisymmetric<T(!new)>(a: seq<T>, b: seq<T>, le: (T, T) -> bool)
    requires TotalOrder(le) && LexLe(a, b, le) && LexLe(b, a, le)
    ensures a == b
  {
    if a != [] && b != [] {
      if a[0] == b[0] {
        LexAntisymmetric(a[1..], b[1..], le);
        assert a == [a[0]] + a[1..] && b == [b[0]] + b[1..];
      }
    }
  }

  lemma {:induction false} LexTransitive<T(!new)>(a: seq<T>, b: seq<T>, c: seq<T>, le: (T, T) -> bool)
    requires TotalOrder(le) && LexLe(a, b, le) && LexLe(b, c, le)
    ensures LexLe(a, c, le)
  {
    if a != [] && b != [] && c != [] {
      if a[0] == b[0] && b[0] == c[0] {
        LexTransitive(a[1..], b[1..], c[1..], le);
      }
    }
  }

  lemma {:induction false} LexReflexive<T>(a: seq<T>, le: (T, T) -> bool)
    ensures LexLe(a, a, le)
  {
    if a != [] {
      LexReflexive(a[1..], le);
    }
  }

  /** Characters compare by code point. */
  function CharLe(c: char, d: char): (r: bool)
  {
    c <= d
  }

  /** Python's `a <= b` on strings. */
  function StrLe(a: string, b: string): (r: bool)
  {
    LexLe(a, b, CharLe)
  }

  /** Python's `a <= b` on lists of strings. */
  function ListLe(a: seq<string>, b: seq<string>): (r: bool)
  {
    LexLe(a, b, StrLe)
  }

  lemma LexTotalOrder<T(!new)>(le: (T, T) -> bool)
    requires TotalOrder(le)
    ensures forall a: seq<T>, b: seq<T> :: LexLe(a, b, le) || LexLe(b, a, le)
    ensures forall a: seq<T>, b: seq<T> :: LexLe(a, b, le) && LexLe(b, a, le) ==> a == b
    ensures forall a: seq<T>, b: seq<T>, c: seq<T> :: LexLe(a, b, le) && LexLe(b, c, le) ==> LexLe(a, c, le)
  {
    forall a: seq<T>, b: seq<T> ensures LexLe(a, b, le) || LexLe(b, a, le) {
      LexTotal(a, b, le);
    }
    forall a: seq<T>, b: seq<T> | LexLe(a, b, le) && LexLe(b, a, le) ensures a == b {
      LexAntisymmetric(a, b, le);
    }
    forall a: seq<T>, b: seq<T>, c: seq<T> | LexLe(a, b, le) && LexLe(b, c, le) ensures LexLe(a, c, le) {
      LexTransitive(a, b, c, le);
    }
  }

  lemma StrLeTotalOrder()
    ensures TotalOrder(StrLe)
  {
    assert TotalOrder(CharLe);
    LexTotalOrder(CharLe);
  }

  lemma ListLeTotalOrder()
    ensures TotalOrder(ListLe)
  {
    StrLeTotalOrder();
    LexTotalOrder(StrLe);
  }
}
