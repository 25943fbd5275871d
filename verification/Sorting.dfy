/**
 Sorting by a strict order, as a library sort promises it: a permutation in which no later element
 is less than an earlier one. Callers rely on that contract alone, so it stands for any correct,
 possibly unstable, sort.
 */
module Sorting {
  import opened Wrappers

  ghost predicate StrictWeakOrder<T(!new)>(less: (T, T) -> bool) {
    && (forall x, y :: less(x, y) ==> !less(y, x))
    && (forall x, y, z :: !less(y, x) && !less(z, y) ==> !less(z, x))
  }

  /** Elements that neither precedes are equal. */
  ghost predicate Total<T(!new)>(less: (T, T) -> bool) {
    StrictWeakOrder(less) && forall x, y :: less(x, y) || less(y, x) || x == y
  }

  ghost predicate Sorted<T(!new)>(s: seq<T>, less: (T, T) -> bool) {
    forall i, j :: 0 <= i < j < |s| ==> !less(s[j], s[i])
  }

  /** Where to insert `x` into a sorted sequence. */
  method InsertionPoint<T(!new)>(s: seq<T>, x: T, less: (T, T) -> bool) returns (k: nat)
    requires StrictWeakOrder(less) && Sorted(s, less)
    ensures k <= |s|
    ensures forall i :: 0 <= i < k ==> !less(x, s[i])
    ensures forall i :: k <= i < |s| ==> !less(s[i], x)
  {
    k := |s|;
    while k > 0 && less(x, s[k - 1])
      invariant 0 <= k <= |s|
      invariant forall i :: k <= i < |s| ==> !less(s[i], x)
    {
      k := k - 1;
    }
    if k > 0 {
      forall i | 0 <= i < k
        ensures !less(x, s[i])
      {
        assert i < k - 1 ==> !less(s[k - 1], s[i]);
      }
    }
  }

  lemma InsertedIsSorted<T(!new)>(s: seq<T>, x: T, k: nat, less: (T, T) -> bool)
    requires Sorted(s, less) && k <= |s|
    requires forall i :: 0 <= i < k ==> !less(x, s[i])
    requires forall i :: k <= i < |s| ==> !less(s[i], x)
    ensures Sorted(s[..k] + [x] + s[k..], less)
  {
    var r := s[..k] + [x] + s[k..];
    forall i, j | 0 <= i < j < |r|
      ensures !less(r[j], r[i])
    {
      assert i < k ==> r[i] == s[i];
      assert j > k ==> r[j] == s[j - 1];
      assert i > k ==> r[i] == s[i - 1];
      assert j < k ==> r[j] == s[j];
    }
  }

  lemma InsertedIsPermutation<T>(s: seq<T>, x: T, k: nat)
    requires k <= |s|
    ensures multiset(s[..k] + [x] + s[k..]) == multiset(s) + multiset{x}
  {
    assert s == s[..k] + s[k..];
  }

  method Sort<T(!new)>(s: seq<T>, less: (T, T) -> bool) returns (r: seq<T>)
    requires StrictWeakOrder(less)
    ensures Sorted(r, less) && multiset(r) == multiset(s)
  {
    r := [];
    for i := 0 to |s|
      invariant Sorted(r, less) && multiset(r) == multiset(s[..i])
    {
      var k := InsertionPoint(r, s[i], less);
      InsertedIsSorted(r, s[i], k, less);
      InsertedIsPermutation(r, s[i], k);
      assert s[..i + 1] == s[..i] + [s[i]];
      r := r[..k] + [s[i]] + r[k..];
    }
    assert s[..|s|] == s;
  }

  lemma LastsAgree<T(!new)>(a: seq<T>, b: seq<T>, less: (T, T) -> bool)
    requires a != [] && b != [] && Sorted(a, less) && Sorted(b, less) && Last(a) in b && Last(b) in a
    requires Last(a) != Last(b) ==> less(Last(a), Last(b)) || less(Last(b), Last(a))
    ensures Last(a) == Last(b)
  {
    var i :| 0 <= i < |b| && b[i] == Last(a);
    var j :| 0 <= j < |a| && a[j] == Last(b);
  }

  lemma FrontPermutes<T>(a: seq<T>, b: seq<T>)
    requires a != [] && b != [] && Last(a) == Last(b) && multiset(a) == multiset(b)
    ensures multiset(Front(a)) == multiset(Front(b))
  {
    assert a == Front(a) + [Last(a)] && b == Front(b) + [Last(b)];
    assert multiset(Front(a)) == multiset(a) - multiset{Last(a)};
    assert multiset(Front(b)) == multiset(b) - multiset{Last(b)};
  }

  lemma SameMembers<T>(a: seq<T>, b: seq<T>, x: T)
    requires multiset(a) == multiset(b)
    ensures x in a <==> x in b
  {
    assert x in a <==> x in multiset(a);
    assert x in b <==> x in multiset(b);
  }

  /** A total order leaves a permutation no choice. */
  lemma {:induction false} SortedPermutationsAgree<T(!new)>(a: seq<T>, b: seq<T>, less: (T, T) -> bool)
    requires Total(less) && Sorted(a, less) && Sorted(b, less) && multiset(a) == multiset(b)
    ensures a == b
  {
    assert |a| == |multiset(a)| == |multiset(b)| == |b|;
    if a != [] {
      SameMembers(a, b, Last(a));
      SameMembers(a, b, Last(b));
      LastsAgree(a, b, less);
      FrontPermutes(a, b);
      SortedPermutationsAgree(Front(a), Front(b), less);
      assert a == Front(a) + [Last(a)] && b == Front(b) + [Last(b)];
    }
  }

  lemma FrontMembers<T(!new)>(s: seq<T>)
    requires Distinct(s) && s != []
    ensures forall x :: x in Front(s) <==> x in s && x != Last(s)
  {
    assert s == Front(s) + [Last(s)];
  }

  /** If no two different elements tie, sorted sequences with the same elements, none repeated, are equal. */
  lemma {:induction false} SortedSetsAgree<T(!new)>(a: seq<T>, b: seq<T>, less: (T, T) -> bool)
    requires Sorted(a, less) && Sorted(b, less) && Distinct(a) && Distinct(b)
    requires forall x :: x in a <==> x in b
    requires forall x, y :: x in a && y in a && x != y ==> less(x, y) || less(y, x)
    ensures a == b
  {
    DistinctCardinality(a);
    DistinctCardinality(b);
    assert Elements(a) == Elements(b);
    if a != [] {
      LastsAgree(a, b, less);
      FrontMembers(a);
      FrontMembers(b);
      SortedSetsAgree(Front(a), Front(b), less);
      assert a == Front(a) + [Last(a)] && b == Front(b) + [Last(b)];
    }
  }

  /** A permutation has the same elements, none repeated if none was. */
  lemma DistinctPermutes<T(!new)>(a: seq<T>, b: seq<T>)
    requires multiset(a) == multiset(b) && Distinct(a)
    ensures Elements(a) == Elements(b) && Distinct(b)
  {
    forall x
      ensures x in a <==> x in b
    {
      SameMembers(a, b, x);
    }
    assert Elements(a) == Elements(b);
    DistinctCardinality(a);
    assert |a| == |multiset(a)| == |multiset(b)| == |b|;
    FullCardinalityIsDistinct(b);
  }

  lemma {:induction false} FullCardinalityIsDistinct<T(!new)>(s: seq<T>)
    requires |Elements(s)| == |s|
    ensures Distinct(s)
  {
    if s != [] {
      ElementsAtMost(Front(s));
      assert Elements(s) == Elements(Front(s)) + {Last(s)};
      FullCardinalityIsDistinct(Front(s));
    }
  }

  lemma {:induction false} ElementsAtMost<T(!new)>(s: seq<T>)
    ensures |Elements(s)| <= |s|
  {
    if s != [] {
      ElementsAtMost(Front(s));
      assert Elements(s) == Elements(Front(s)) + {Last(s)};
    }
  }

  // ---- strings ----

  /** Byte-wise string order. */
  predicate StringLess(s: string, t: string) {
    if t == "" then false
    else if s == "" then true
    else s[0] < t[0] || (s[0] == t[0] && StringLess(s[1..], t[1..]))
  }

  /** After a common beginning of length `k`, `s` ends or has the smaller character. */
  predicate PrecedesAt(s: string, t: string, k: nat) {
    k <= |s| && k < |t| && s[..k] == t[..k] && (k == |s| || s[k] < t[k])
  }

  /** Lexicographic order, by the first place where the strings differ. */
  predicate Precedes(s: string, t: string) {
    exists k :: 0 <= k <= |s| && PrecedesAt(s, t, k)
  }

  lemma {:induction false} StringLessIsPrecedes(s: string, t: string)
    ensures StringLess(s, t) <==> Precedes(s, t)
  {
    if s == "" {
      assert t != "" ==> PrecedesAt(s, t, 0);
    } else if t != "" {
      StringLessIsPrecedes(s[1..], t[1..]);
      if s[0] < t[0] {
        assert PrecedesAt(s, t, 0);
      }
      if k :| 0 <= k <= |s[1..]| && PrecedesAt(s[1..], t[1..], k) && s[0] == t[0] {
        assert s[..k + 1] == [s[0]] + s[1..][..k] && t[..k + 1] == [t[0]] + t[1..][..k];
        assert PrecedesAt(s, t, k + 1);
      }
      if k :| 0 < k <= |s| && PrecedesAt(s, t, k) {
        assert s[..k][0] == s[0] && t[..k][0] == t[0];
        assert s[1..][..k - 1] == s[..k][1..] && t[1..][..k - 1] == t[..k][1..];
        assert PrecedesAt(s[1..], t[1..], k - 1);
      }
    }
  }

  lemma {:induction false} StringLessAsymmetric(s: string, t: string)
    ensures !(StringLess(s, t) && StringLess(t, s))
  {
    if s != "" && t != "" {
      StringLessAsymmetric(s[1..], t[1..]);
    }
  }

  lemma {:induction false} StringLessTotal(s: string, t: string)
    ensures StringLess(s, t) || StringLess(t, s) || s == t
  {
    if s != "" && t != "" {
      StringLessTotal(s[1..], t[1..]);
      assert s == [s[0]] + s[1..] && t == [t[0]] + t[1..];
    }
  }

  lemma {:induction false} NotLessTransitive(s: string, t: string, u: string)
    requires !StringLess(t, s) && !StringLess(u, t)
    ensures !StringLess(u, s)
  {
    if s != "" && t != "" && u != "" {
      if s[0] == t[0] == u[0] {
        NotLessTransitive(s[1..], t[1..], u[1..]);
      }
    }
  }

  lemma StringOrder()
    ensures Total(StringLess)
  {
    forall s, t
      ensures StringLess(s, t) ==> !StringLess(t, s)
      ensures StringLess(s, t) || StringLess(t, s) || s == t
    {
      StringLessAsymmetric(s, t);
      StringLessTotal(s, t);
    }
    forall s, t, u | !StringLess(t, s) && !StringLess(u, t)
      ensures !StringLess(u, s)
    {
      NotLessTransitive(s, t, u);
    }
  }
}
