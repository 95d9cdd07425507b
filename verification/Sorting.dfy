/** A stable sort of a copy, as the runtime sorts arrays; `less(a, b)` says that `a` is to come first. */
module Sorting {
  function Insert<T>(x: T, sorted: seq<T>, less: (T, T) -> bool): seq<T> {
    if sorted == [] || !less(sorted[0], x) then [x] + sorted
    else [sorted[0]] + Insert(x, sorted[1..], less)
  }

  function Sort<T>(s: seq<T>, less: (T, T) -> bool): seq<T> {
    if s == [] then [] else Insert(s[0], Sort(s[1..], less), less)
  }

  ghost predicate Sorted<T>(s: seq<T>, less: (T, T) -> bool) {
    forall i, j :: 0 <= i < j < |s| ==> !less(s[j], s[i])
  }

  /** A comparison function that is consistent on the elements of `s`. */
  ghost predicate WeakOrder<T(!new)>(s: seq<T>, less: (T, T) -> bool) {
    && (forall a, b :: a in s && b in s && less(a, b) ==> !less(b, a))
    && (forall a, b, c :: a in s && b in s && c in s && less(a, c) ==> less(a, b) || less(b, c))
  }

  lemma {:induction false} InsertContents<T>(x: T, s: seq<T>, less: (T, T) -> bool)
    ensures multiset(Insert(x, s, less)) == multiset{x} + multiset(s)
  {
    if s != [] && less(s[0], x) {
      assert s == [s[0]] + s[1..];
      InsertContents(x, s[1..], less);
    }
  }

  lemma {:induction false} SortContents<T>(s: seq<T>, less: (T, T) -> bool)
    ensures multiset(Sort(s, less)) == multiset(s)
    ensures |Sort(s, less)| == |s|
    ensures forall x :: x in Sort(s, less) <==> x in s
  {
    if s != [] {
      assert s == [s[0]] + s[1..];
      SortContents(s[1..], less);
      InsertContents(s[0], Sort(s[1..], less), less);
    }
    assert |multiset(Sort(s, less))| == |multiset(s)|;
    assert forall x :: x in Sort(s, less) <==> x in multiset(Sort(s, less));
  }

  lemma FewerElements<T(!new)>(a: seq<T>, b: seq<T>, less: (T, T) -> bool)
    requires WeakOrder(b, less) && forall e :: e in a ==> e in b
    ensures WeakOrder(a, less)
  {
  }

  lemma InsertAboveFirst<T(!new)>(x: T, s: seq<T>, less: (T, T) -> bool)
    requires s != [] && WeakOrder([x] + s, less) && Sorted(s, less) && less(s[0], x)
    ensures forall e :: e in Insert(x, s[1..], less) ==> !less(e, s[0])
  {
    InsertContents(x, s[1..], less);
    forall e | e in Insert(x, s[1..], less)
      ensures !less(e, s[0])
    {
      assert e in multiset(Insert(x, s[1..], less));
      assert s[0] in [x] + s && x in [x] + s;
    }
  }

  lemma {:induction false} InsertSorted<T(!new)>(x: T, s: seq<T>, less: (T, T) -> bool)
    requires WeakOrder([x] + s, less) && Sorted(s, less)
    ensures Sorted(Insert(x, s, less), less)
  {
    if s != [] && less(s[0], x) {
      FewerElements([x] + s[1..], [x] + s, less);
      InsertSorted(x, s[1..], less);
      InsertAboveFirst(x, s, less);
    } else if s != [] {
      forall j | 0 <= j < |s|
        ensures !less(s[j], x)
      {
        assert s[0] in [x] + s && x in [x] + s && s[j] in [x] + s;
        assert j > 0 ==> !less(s[j], s[0]);
      }
    }
  }

  lemma {:induction false} SortSorts<T(!new)>(s: seq<T>, less: (T, T) -> bool)
    requires WeakOrder(s, less)
    ensures Sorted(Sort(s, less), less)
  {
    if s != [] {
      assert forall e :: e in s[1..] ==> e in s;
      SortSorts(s[1..], less);
      SortContents(s[1..], less);
      assert forall e :: e in [s[0]] + Sort(s[1..], less) ==> e in s;
      InsertSorted(s[0], Sort(s[1..], less), less);
    }
  }

  /** The first element that no element beats: what a stable sort puts at the front. */
  ghost predicate FirstMinimum<T>(s: seq<T>, i: nat, less: (T, T) -> bool)
    requires i < |s|
  {
    && (forall j :: 0 <= j < |s| ==> !less(s[j], s[i]))
    && (forall j :: 0 <= j < i ==> less(s[i], s[j]))
  }

  lemma {:induction false} HeadOfSort<T(!new)>(s: seq<T>, less: (T, T) -> bool) returns (i: nat)
    requires s != [] && WeakOrder(s, less)
    ensures i < |s| && Sort(s, less) != [] && Sort(s, less)[0] == s[i] && FirstMinimum(s, i, less)
  {
    i := 0;
    if |s| > 1 {
      var rest := s[1..];
      assert forall e :: e in rest ==> e in s;
      var k := HeadOfSort(rest, less);
      assert forall j :: 0 < j < |s| ==> s[j] == rest[j - 1];
      if less(rest[k], s[0]) {
        i := k + 1;
      } else {
        forall j | 0 < j < |s|
          ensures !less(s[j], s[0])
        {
          assert s[0] in s && s[j] in s && s[k + 1] in s;
        }
      }
    }
  }

  /** Two strictly sorted sequences with the same elements are equal. */
  lemma {:induction false} StrictlySortedUnique<T(!new)>(a: seq<T>, b: seq<T>, less: (T, T) -> bool)
    requires forall i, j :: 0 <= i < j < |a| ==> less(a[i], a[j])
    requires forall i, j :: 0 <= i < j < |b| ==> less(b[i], b[j])
    requires forall x, y :: x in a && y in a && less(x, y) ==> !less(y, x)
    requires forall x :: x in a <==> x in b
    ensures a == b
  {
    if a == [] {
      assert forall k :: 0 <= k < |b| ==> b[k] in b;
    } else {
      assert a[0] in b && b[0] in a;
      var i :| 0 <= i < |b| && b[i] == a[0];
      var j :| 0 <= j < |a| && a[j] == b[0];
      assert a[0] == b[0];
      NotAgain(a, less);
      NotAgain(b, less);
      StrictlySortedUnique(a[1..], b[1..], less);
    }
  }

  lemma NotAgain<T(!new)>(a: seq<T>, less: (T, T) -> bool)
    requires a != [] && forall i, j :: 0 <= i < j < |a| ==> less(a[i], a[j])
    requires forall x, y :: x in a && y in a && less(x, y) ==> !less(y, x)
    ensures forall x :: x in a[1..] <==> x in a && x != a[0]
  {
  }
}
