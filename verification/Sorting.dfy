/** Stable sorting and filtering of sequences. */
module Sorting {

  ghost predicate TotalPreorder<T(!new)>(leq: (T, T) -> bool) {
    && (forall x, y :: leq(x, y) || leq(y, x))
    && (forall x, y, z :: leq(x, y) && leq(y, z) ==> leq(x, z))
  }

  ghost predicate Sorted<T>(s: seq<T>, leq: (T, T) -> bool) {
    forall i, j :: 0 <= i < j < |s| ==> leq(s[i], s[j])
  }

  /** Insert behind every element that is not greater. */
  function Insert<T>(s: seq<T>, x: T, leq: (T, T) -> bool): seq<T> {
    if s == [] then [x]
    else if leq(s[|s| - 1], x) then s + [x]
    else Insert(s[..|s| - 1], x, leq) + [s[|s| - 1]]
  }

  /** The stable sort: equivalent elements keep their order. */
  function Sort<T>(s: seq<T>, leq: (T, T) -> bool): seq<T> {
    if s == [] then [] else Insert(Sort(s[..|s| - 1], leq), s[|s| - 1], leq)
  }

  function Filter<T>(s: seq<T>, p: T -> bool): seq<T> {
    if s == [] then []
    else
      var r := Filter(s[..|s| - 1], p);
      if p(s[|s| - 1]) then r + [s[|s| - 1]] else r
  }

  lemma {:induction false} InsertMultiset<T>(s: seq<T>, x: T, leq: (T, T) -> bool)
    ensures multiset(Insert(s, x, leq)) == multiset(s) + multiset{x}
  {
    if s != [] {
      var init, last := s[..|s| - 1], s[|s| - 1];
      assert s == init + [last];
      if !leq(last, x) {
        InsertMultiset(init, x, leq);
      }
    }
  }

  lemma SortedAppend<T>(s: seq<T>, x: T, leq: (T, T) -> bool)
    requires Sorted(s, leq) && forall i :: 0 <= i < |s| ==> leq(s[i], x)
    ensures Sorted(s + [x], leq)
  {
  }

  lemma {:induction false} InsertSorted<T(!new)>(s: seq<T>, x: T, leq: (T, T) -> bool)
    requires TotalPreorder(leq) && Sorted(s, leq)
    ensures Sorted(Insert(s, x, leq), leq)
  {
    if s != [] {
      var init, last := s[..|s| - 1], s[|s| - 1];
      assert forall i :: 0 <= i < |init| ==> leq(init[i], last);
      if leq(last, x) {
        SortedAppend(s, x, leq);
      } else {
        InsertSorted(init, x, leq);
        var r := Insert(init, x, leq);
        InsertMultiset(init, x, leq);
        forall i | 0 <= i < |r|
          ensures leq(r[i], last)
        {
          assert r[i] in multiset(r);
          assert r[i] in multiset(init) || r[i] == x;
          assert r[i] in multiset(init) ==> r[i] in init;
        }
        SortedAppend(r, last, leq);
      }
    }
  }

  /** Sorting sorts, and neither adds nor drops anything. */
  lemma {:induction false} SortSorts<T(!new)>(s: seq<T>, leq: (T, T) -> bool)
    requires TotalPreorder(leq)
    ensures Sorted(Sort(s, leq), leq) && multiset(Sort(s, leq)) == multiset(s)
  {
    if s != [] {
      var init, last := s[..|s| - 1], s[|s| - 1];
      SortSorts(init, leq);
      InsertSorted(Sort(init, leq), last, leq);
      assert multiset(Sort(s, leq)) == multiset(s) by {
        InsertMultiset(Sort(init, leq), last, leq);
        assert s == init + [last];
      }
    }
  }

  lemma FilterAppend<T>(s: seq<T>, x: T, p: T -> bool)
    ensures Filter(s + [x], p) == if p(x) then Filter(s, p) + [x] else Filter(s, p)
  {
  }

  lemma {:induction false} FilterMember<T>(s: seq<T>, p: T -> bool, x: T)
    ensures x in Filter(s, p) <==> x in s && p(x)
  {
    if s != [] {
      FilterMember(s[..|s| - 1], p, x);
      assert s == s[..|s| - 1] + [s[|s| - 1]];
    }
  }

  lemma InsertAppend<T>(s: seq<T>, last: T, x: T, leq: (T, T) -> bool)
    ensures Insert(s + [last], x, leq) == if leq(last, x) then s + [last] + [x] else Insert(s, x, leq) + [last]
  {
  }

  lemma SortAppend<T>(s: seq<T>, x: T, leq: (T, T) -> bool)
    ensures Sort(s + [x], leq) == Insert(Sort(s, leq), x, leq)
  {
  }

  lemma AllBelow<T(!new)>(s: seq<T>, x: T, leq: (T, T) -> bool)
    requires TotalPreorder(leq) && Sorted(s, leq) && s != [] && leq(s[|s| - 1], x)
    ensures forall y :: y in s ==> leq(y, x)
  {
  }

  lemma InsertAtEnd<T>(s: seq<T>, x: T, leq: (T, T) -> bool, p: T -> bool)
    requires forall y :: y in s ==> leq(y, x)
    ensures Insert(Filter(s, p), x, leq) == Filter(s, p) + [x]
  {
  }

  lemma {:induction false} InsertFilter<T(!new)>(s: seq<T>, x: T, leq: (T, T) -> bool, p: T -> bool)
    requires TotalPreorder(leq) && Sorted(s, leq)
    ensures Filter(Insert(s, x, leq), p) == if p(x) then Insert(Filter(s, p), x, leq) else Filter(s, p)
  {
    if s == [] {
      FilterAppend([], x, p);
    } else {
      var init, last := s[..|s| - 1], s[|s| - 1];
      assert s == init + [last];
      if leq(last, x) {
        FilterAppend(s, x, p);
        AllBelow(s, x, leq);
        InsertAtEnd(s, x, leq, p);
      } else {
        InsertFilter(init, x, leq, p);
        FilterAppend(Insert(init, x, leq), last, p);
        InsertAppend(Filter(init, p), last, x, leq);
      }
    }
  }

  /** Filtering commutes with a stable sort. */
  lemma {:induction false} SortFilter<T(!new)>(s: seq<T>, leq: (T, T) -> bool, p: T -> bool)
    requires TotalPreorder(leq)
    ensures Filter(Sort(s, leq), p) == Sort(Filter(s, p), leq)
  {
    if s != [] {
      var init, last := s[..|s| - 1], s[|s| - 1];
      SortFilter(init, leq, p);
      assert Sorted(Sort(init, leq), leq) by { SortSorts(init, leq); }
      InsertFilter(Sort(init, leq), last, leq, p);
      SortAppend(Filter(init, p), last, leq);
    }
  }

  lemma {:induction false} FilterAll<T>(s: seq<T>, p: T -> bool)
    requires forall x :: x in s ==> p(x)
    ensures Filter(s, p) == s
  {
    if s != [] {
      assert s[|s| - 1] in s;
      FilterAll(s[..|s| - 1], p);
      assert s == s[..|s| - 1] + [s[|s| - 1]];
    }
  }

  lemma {:induction false} FilterConcat<T>(a: seq<T>, b: seq<T>, p: T -> bool)
    ensures Filter(a + b, p) == Filter(a, p) + Filter(b, p)
  {
    if b == [] {
      assert a + b == a;
    } else {
      FilterConcat(a, b[..|b| - 1], p);
      assert a + b == a + b[..|b| - 1] + [b[|b| - 1]];
      FilterAppend(a + b[..|b| - 1], b[|b| - 1], p);
    }
  }

  lemma {:induction false} FilterNone<T>(s: seq<T>, p: T -> bool)
    requires forall x :: x in s ==> !p(x)
    ensures Filter(s, p) == []
  {
    if s != [] {
      assert s[|s| - 1] in s;
      FilterNone(s[..|s| - 1], p);
    }
  }

  lemma {:induction false} FilterCongruent<T>(s: seq<T>, p: T -> bool, q: T -> bool)
    requires forall x :: x in s ==> p(x) == q(x)
    ensures Filter(s, p) == Filter(s, q)
  {
    if s != [] {
      assert s[|s| - 1] in s;
      FilterCongruent(s[..|s| - 1], p, q);
    }
  }

  lemma {:induction false} FilterCommute<T>(s: seq<T>, p: T -> bool, q: T -> bool)
    ensures Filter(Filter(s, p), q) == Filter(Filter(s, q), p)
  {
    if s != [] {
      var init, last := s[..|s| - 1], s[|s| - 1];
      FilterCommute(init, p, q);
      FilterAppend(Filter(init, p), last, q);
      FilterAppend(Filter(init, q), last, p);
    }
  }

  lemma {:induction false} FilterSorted<T>(s: seq<T>, leq: (T, T) -> bool, p: T -> bool)
    requires Sorted(s, leq)
    ensures Sorted(Filter(s, p), leq)
  {
    if s != [] {
      var init, last := s[..|s| - 1], s[|s| - 1];
      FilterSorted(init, leq, p);
      forall x | x in Filter(init, p)
        ensures leq(x, last)
      {
        FilterMember(init, p, x);
      }
    }
  }

  /** In a sorted sequence, what a downward closed property keeps is a prefix. */
  lemma {:induction false} FilterPrefix<T>(s: seq<T>, leq: (T, T) -> bool, p: T -> bool)
    requires Sorted(s, leq) && forall x, y :: x in s && y in s && leq(x, y) && p(y) ==> p(x)
    ensures Filter(s, p) <= s && forall i :: |Filter(s, p)| <= i < |s| ==> !p(s[i])
  {
    if s != [] {
      var init, last := s[..|s| - 1], s[|s| - 1];
      assert s == init + [last];
      FilterPrefix(init, leq, p);
      if p(last) {
        assert forall x :: x in init ==> p(x);
        FilterAll(init, p);
      }
    }
  }

  ghost predicate Distinct<T>(s: seq<T>) {
    forall i, j :: 0 <= i < j < |s| ==> s[i] != s[j]
  }

  lemma {:induction false} DistinctCounts<T>(s: seq<T>, x: T)
    requires Distinct(s)
    ensures multiset(s)[x] == if x in s then 1 else 0
  {
    if s != [] {
      var init, last := s[..|s| - 1], s[|s| - 1];
      assert s == init + [last];
      DistinctCounts(init, x);
    }
  }

  /** Without repetitions, the same members mean the same multiset. */
  lemma SameMembersSameMultiset<T>(a: seq<T>, b: seq<T>)
    requires Distinct(a) && Distinct(b) && forall x :: x in a <==> x in b
    ensures multiset(a) == multiset(b)
  {
    forall x
      ensures multiset(a)[x] == multiset(b)[x]
    {
      DistinctCounts(a, x);
      DistinctCounts(b, x);
    }
  }

  /** No two different elements of `s` are equivalent. */
  ghost predicate Strict<T>(s: seq<T>, leq: (T, T) -> bool) {
    forall x, y :: x in s && y in s && leq(x, y) && leq(y, x) ==> x == y
  }

  /** Without equivalent elements, a sorted order is the only one. */
  lemma {:induction false} SortedUnique<T>(a: seq<T>, b: seq<T>, leq: (T, T) -> bool)
    requires Sorted(a, leq) && Sorted(b, leq)
    requires multiset(a) == multiset(b) && Strict(a, leq)
    ensures a == b
  {
    if a == [] || b == [] {
      assert |multiset(a)| == |a| && |multiset(b)| == |b|;
    } else {
      var a', b', x := a[..|a| - 1], b[..|b| - 1], a[|a| - 1];
      assert b[|b| - 1] == x by { SameLast(a, b, leq); }
      assert a' == b' by {
        DropLast(a, leq);
        DropLast(b, leq);
        SortedUnique(a', b', leq);
      }
      assert a == a' + [x] && b == b' + [x];
    }
  }

  lemma DropLast<T>(s: seq<T>, leq: (T, T) -> bool)
    requires s != []
    ensures
      var init := s[..|s| - 1];
      && multiset(init) == multiset(s) - multiset{s[|s| - 1]}
      && (Sorted(s, leq) ==> Sorted(init, leq)) && (Strict(s, leq) ==> Strict(init, leq))
  {
    var init := s[..|s| - 1];
    assert s == init + [s[|s| - 1]];
    assert forall z :: z in init ==> z in s;
  }

  lemma SameLast<T>(a: seq<T>, b: seq<T>, leq: (T, T) -> bool)
    requires Sorted(a, leq) && Sorted(b, leq) && Strict(a, leq)
    requires a != [] && b != [] && multiset(a) == multiset(b)
    ensures a[|a| - 1] == b[|b| - 1]
  {
    var x, y := a[|a| - 1], b[|b| - 1];
    assert x in b by { assert x in multiset(a); }
    assert y in a by { assert y in multiset(b); }
    var i :| 0 <= i < |b| && b[i] == x;
    var j :| 0 <= j < |a| && a[j] == y;
    assert i < |b| - 1 ==> leq(b[i], b[|b| - 1]);
    assert j < |a| - 1 ==> leq(a[j], a[|a| - 1]);
  }

  /** So the sort does not depend on the order of its input. */
  lemma SortPermutation<T(!new)>(a: seq<T>, b: seq<T>, leq: (T, T) -> bool)
    requires TotalPreorder(leq) && multiset(a) == multiset(b) && Strict(a, leq)
    ensures Sort(a, leq) == Sort(b, leq)
  {
    SortSorts(a, leq);
    SortSorts(b, leq);
    var r := Sort(a, leq);
    assert forall x :: x in r ==> x in multiset(a) && x in a by {
      assert forall x :: x in r ==> x in multiset(r);
    }
    SortedUnique(r, Sort(b, leq), leq);
  }
}
