/** Facts about sequences and multisets that several models below share. */
module Sequences {

  function Map<A, B>(f: A -> B, s: seq<A>): (r: seq<B>)
    ensures |r| == |s|
    ensures forall i :: 0 <= i < |s| ==> r[i] == f(s[i])
  {
    seq(|s|, i requires 0 <= i < |s| => f(s[i]))
  }

  function Filter<A(!new)>(p: A -> bool, s: seq<A>): (r: seq<A>)
    ensures |r| <= |s|
    ensures forall x :: x in r <==> x in s && p(x)
  {
    if s == [] then []
    else
      var rest := Filter(p, s[..|s| - 1]);
      if p(s[|s| - 1]) then rest + [s[|s| - 1]] else rest
  }

  function Flatten<A>(ss: seq<seq<A>>): seq<A> {
    if ss == [] then [] else Flatten(ss[..|ss| - 1]) + ss[|ss| - 1]
  }

  function Sum(s: seq<nat>): nat {
    if s == [] then 0 else Sum(s[..|s| - 1]) + s[|s| - 1]
  }

  ghost predicate Distinct<A(!new)>(s: seq<A>) {
    forall i, j :: 0 <= i < j < |s| ==> s[i] != s[j]
  }

  lemma SplitLast<A>(s: seq<A>)
    requires s != []
    ensures s == s[..|s| - 1] + [s[|s| - 1]]
  {
  }

  lemma {:induction false} FilterAppend<A(!new)>(p: A -> bool, a: seq<A>, b: seq<A>)
    ensures Filter(p, a + b) == Filter(p, a) + Filter(p, b)
  {
    if b == [] {
      assert a + b == a;
    } else {
      assert (a + b)[..|a + b| - 1] == a + b[..|b| - 1];
      FilterAppend(p, a, b[..|b| - 1]);
    }
  }

  lemma {:induction false} FlattenAppend<A>(a: seq<seq<A>>, b: seq<seq<A>>)
    ensures Flatten(a + b) == Flatten(a) + Flatten(b)
  {
    if b == [] {
      assert a + b == a;
    } else {
      assert (a + b)[..|a + b| - 1] == a + b[..|b| - 1];
      FlattenAppend(a, b[..|b| - 1]);
    }
  }

  lemma {:induction false} FilterMultiset<A(!new)>(p: A -> bool, s: seq<A>, x: A)
    ensures multiset(Filter(p, s))[x] == if p(x) then multiset(s)[x] else 0
  {
    if s != [] {
      SplitLast(s);
      FilterMultiset(p, s[..|s| - 1], x);
    }
  }

  lemma MapAppend<A, B>(f: A -> B, a: seq<A>, b: seq<A>)
    ensures Map(f, a + b) == Map(f, a) + Map(f, b)
  {
  }

  /** Taking the element at `k` out of a sequence takes one occurrence out of its image. */
  lemma MapWithout<A, B>(f: A -> B, s: seq<A>, k: nat)
    requires k < |s|
    ensures multiset(s) == multiset(s[..k] + s[k + 1..]) + multiset{s[k]}
    ensures multiset(Map(f, s)) == multiset(Map(f, s[..k] + s[k + 1..])) + multiset{f(s[k])}
  {
    assert s == s[..k] + [s[k]] + s[k + 1..];
    MapAppend(f, s[..k], s[k + 1..]);
    assert Map(f, s) == Map(f, s[..k]) + [f(s[k])] + Map(f, s[k + 1..]);
  }

  /** Equal multisets have equal images: mapping forgets nothing but order. */
  lemma {:induction false} MapMultiset<A, B>(f: A -> B, a: seq<A>, b: seq<A>)
    requires multiset(a) == multiset(b)
    ensures multiset(Map(f, a)) == multiset(Map(f, b))
    decreases |a|
  {
    if a == [] {
      assert |multiset(b)| == 0;
      assert b == [];
    } else {
      assert a[0] in multiset(b);
      var k :| 0 <= k < |b| && b[k] == a[0];
      MapWithout(f, a, 0);
      MapWithout(f, b, k);
      assert multiset(a[..0] + a[1..]) == multiset(a) - multiset{a[0]};
      assert multiset(b[..k] + b[k + 1..]) == multiset(b) - multiset{a[0]};
      MapMultiset(f, a[..0] + a[1..], b[..k] + b[k + 1..]);
    }
  }

  lemma SubsetSize<A>(a: set<A>, b: set<A>)
    requires a <= b
    ensures |a| <= |b|
  {
    assert b == a + (b - a);
  }

  lemma {:induction false} DistinctSize<A(!new)>(s: seq<A>)
    requires Distinct(s)
    ensures |(set x <- s)| == |s|
  {
    if s != [] {
      var front, last := s[..|s| - 1], s[|s| - 1];
      SplitLast(s);
      DistinctSize(front);
      assert (set x <- s) == (set x <- front) + {last};
    }
  }

  lemma {:induction false} FilterDistinct<A(!new)>(p: A -> bool, s: seq<A>)
    requires Distinct(s)
    ensures Distinct(Filter(p, s))
  {
    if s != [] {
      var front, last := s[..|s| - 1], s[|s| - 1];
      FilterDistinct(p, front);
      assert last !in front;
    }
  }

  lemma {:induction false} FilterMap<A(!new), B(!new)>(f: A -> B, p: B -> bool, q: A -> bool, s: seq<A>)
    requires forall x :: x in s ==> q(x) == p(f(x))
    ensures Filter(p, Map(f, s)) == Map(f, Filter(q, s))
  {
    if s != [] {
      var front, last := s[..|s| - 1], s[|s| - 1];
      SplitLast(s);
      assert Map(f, s)[..|s| - 1] == Map(f, front);
      FilterMap(f, p, q, front);
      MapAppend(f, Filter(q, front), [last]);
    }
  }

  /** Filtering keeps at least as much of a larger multiset. */
  lemma FilterSize<A(!new)>(p: A -> bool, a: seq<A>, b: seq<A>)
    requires multiset(a) <= multiset(b)
    ensures |Filter(p, a)| <= |Filter(p, b)|
  {
    var fa, fb := multiset(Filter(p, a)), multiset(Filter(p, b));
    forall x
      ensures fa[x] <= fb[x]
    {
      FilterMultiset(p, a, x);
      FilterMultiset(p, b, x);
    }
    assert fb == fa + (fb - fa);
    assert |fa| == |Filter(p, a)| && |fb| == |Filter(p, b)|;
  }

  lemma TwoInSet<A>(s: set<A>, x: A, y: A)
    requires x in s && y in s && x != y
    ensures |s| > 1
  {
    SubsetSize({x, y}, s);
  }

  lemma MoreThanOne<A(!new)>(s: set<A>)
    ensures |s| > 1 <==> exists x, y :: x in s && y in s && x != y
  {
    if |s| > 1 {
      var x :| x in s;
      assert |s - {x}| == |s| - 1;
      var y :| y in s - {x};
    }
    if x, y :| x in s && y in s && x != y {
      TwoInSet(s, x, y);
    }
  }

  /** A filter keeps an element exactly when some position passes it, and more than one when two do. */
  lemma {:induction false} TwoFiltered<A(!new)>(p: A -> bool, s: seq<A>)
    ensures |Filter(p, s)| > 0 <==> exists i :: 0 <= i < |s| && p(s[i])
    ensures |Filter(p, s)| > 1 <==> exists i, j :: 0 <= i < j < |s| && p(s[i]) && p(s[j])
  {
    if s != [] {
      var front, last := s[..|s| - 1], |s| - 1;
      TwoFiltered(p, front);
      assert forall i :: 0 <= i < last ==> front[i] == s[i];
      if p(s[last]) {
        assert (exists i :: 0 <= i < last && p(front[i])) ==> exists i, j :: 0 <= i < j < |s| && p(s[i]) && p(s[j]);
      }
    }
  }
}
