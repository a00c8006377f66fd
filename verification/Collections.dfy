/** Facts about lists and their multisets that the candidate gate's sort-and-compare tests rest on. */
module Collections {

  function Map<T, U>(f: T -> U, s: seq<T>): (r: seq<U>)
    ensures |r| == |s| && forall i :: 0 <= i < |s| ==> r[i] == f(s[i])
  {
    if s == [] then [] else [f(s[0])] + Map(f, s[1..])
  }

  function Filter<T(!new)>(keep: T -> bool, s: seq<T>): (r: seq<T>)
    ensures forall x :: x in r <==> x in s && keep(x)
  {
    if s == [] then []
    else
      assert s == [s[0]] + s[1..];
      if keep(s[0]) then [s[0]] + Filter(keep, s[1..]) else Filter(keep, s[1..])
  }

  ghost predicate Distinct<T>(s: seq<T>)
  {
    forall i, j :: 0 <= i < j < |s| ==> s[i] != s[j]
  }

  function Members<T(==,!new)>(s: seq<T>): (r: set<T>)
    ensures forall x :: x in r <==> x in s
  {
    set x | x in s
  }

  lemma {:induction false} MembersSize<T(!new)>(s: seq<T>)
    ensures |Members(s)| <= |s|
    ensures |Members(s)| == |s| <==> Distinct(s)
  {
    if s == [] {
      assert Members(s) == {};
    } else {
      var x, rest := s[0], s[1..];
      assert s == [x] + rest;
      MembersSize(rest);
      assert Members(s) == {x} + Members(rest);
      if x in rest {
        assert Members(s) == Members(rest);
        var i :| 0 <= i < |rest| && rest[i] == x;
        assert s[i + 1] == s[0];
      } else {
        DistinctCons(x, rest);
      }
    }
  }

  lemma DistinctCons<T>(x: T, rest: seq<T>)
    requires x !in rest
    ensures Distinct([x] + rest) <==> Distinct(rest)
  {
    var s := [x] + rest;
    assert forall i :: 0 <= i < |rest| ==> s[i + 1] == rest[i];
    if Distinct(s) {
      forall i, j | 0 <= i < j < |rest|
        ensures rest[i] != rest[j]
      {
        assert s[i + 1] != s[j + 1];
      }
    }
  }

  lemma DistinctHead<T>(x: T, rest: seq<T>)
    requires Distinct([x] + rest)
    ensures x !in rest && Distinct(rest)
  {
    var s := [x] + rest;
    assert s[0] == x && forall i :: 0 <= i < |rest| ==> s[i + 1] == rest[i];
    forall i, j | 0 <= i < j < |rest|
      ensures rest[i] != rest[j]
    {
      assert s[i + 1] != s[j + 1];
    }
  }

  /** The pigeonhole: as many distinct values as there are allowed ones are all of them. */
  lemma Pigeonhole<T(!new)>(s: seq<T>, allowed: set<T>)
    requires Distinct(s) && |s| == |allowed| && forall i :: 0 <= i < |s| ==> s[i] in allowed
    ensures Members(s) == allowed
  {
    MembersSize(s);
    SubsetOfSize(Members(s), allowed);
  }

  lemma SubsetSize<T>(a: set<T>, b: set<T>)
    requires a <= b
    ensures |a| <= |b|
  {
    assert b == a + (b - a) && |b| == |a| + |b - a|;
  }

  lemma SubsetOfSize<T>(a: set<T>, b: set<T>)
    requires a <= b && |a| == |b|
    ensures a == b
  {
    assert b == a + (b - a) && |b| == |a| + |b - a|;
  }

  lemma {:induction false} MapCount<T(!new), U>(f: T -> U, s: seq<T>, x: T)
    requires forall y :: y in s && f(y) == f(x) ==> y == x
    ensures multiset(Map(f, s))[f(x)] == multiset(s)[x]
  {
    if s != [] {
      assert s == [s[0]] + s[1..];
      MapCount(f, s[1..], x);
    }
  }

  /** A map that is injective on both lists compares them as well as they compare themselves. */
  lemma InjectiveMapMultiset<T(!new), U>(f: T -> U, a: seq<T>, b: seq<T>)
    requires forall x, y :: x in a + b && y in a + b && f(x) == f(y) ==> x == y
    ensures multiset(Map(f, a)) == multiset(Map(f, b)) <==> multiset(a) == multiset(b)
  {
    if multiset(a) == multiset(b) {
      MapMultiset(f, a, b);
    }
    if multiset(Map(f, a)) == multiset(Map(f, b)) {
      forall x
        ensures multiset(a)[x] == multiset(b)[x]
      {
        if x in a + b {
          MapCount(f, a, x);
          MapCount(f, b, x);
        }
      }
    }
  }

  lemma MultisetRemove<T>(s: seq<T>, i: nat)
    requires i < |s|
    ensures multiset(s) == multiset(s[..i] + s[i + 1..]) + multiset{s[i]}
  {
    assert s == s[..i] + ([s[i]] + s[i + 1..]);
  }

  lemma MapRemove<T, U>(f: T -> U, s: seq<T>, i: nat)
    requires i < |s|
    ensures Map(f, s[..i] + s[i + 1..]) == Map(f, s)[..i] + Map(f, s)[i + 1..]
  {
    hide Map;
    var less := s[..i] + s[i + 1..];
    forall k | 0 <= k < |less|
      ensures Map(f, less)[k] == (Map(f, s)[..i] + Map(f, s)[i + 1..])[k]
    {
      if k < i {
        assert less[k] == s[k];
      } else {
        assert less[k] == s[k + 1];
      }
    }
  }

  lemma RemoveSame<T>(a: seq<T>, b: seq<T>) returns (i: nat)
    requires a != [] && multiset(a) == multiset(b)
    ensures i < |b| && b[i] == a[0]
    ensures multiset(a[1..]) == multiset(b[..i] + b[i + 1..])
  {
    assert a == [a[0]] + a[1..];
    assert a[0] in multiset(b);
    i :| 0 <= i < |b| && b[i] == a[0];
    MultisetRemove(b, i);
    assert multiset(a[1..]) == multiset(a) - multiset{a[0]};
    assert multiset(b[..i] + b[i + 1..]) == multiset(b) - multiset{b[i]};
  }

  lemma {:induction false} MapMultiset<T, U>(f: T -> U, a: seq<T>, b: seq<T>)
    requires multiset(a) == multiset(b)
    ensures multiset(Map(f, a)) == multiset(Map(f, b))
  {
    if a == [] {
      assert |multiset(b)| == 0;
    } else {
      var i := RemoveSame(a, b);
      MapMultiset(f, a[1..], b[..i] + b[i + 1..]);
      MapRemove(f, b, i);
      MultisetRemove(Map(f, b), i);
      assert Map(f, a) == [f(a[0])] + Map(f, a[1..]);
    }
  }

  lemma {:induction false} FilterCount<T(!new)>(keep: T -> bool, s: seq<T>, x: T)
    ensures multiset(Filter(keep, s))[x] == if keep(x) then multiset(s)[x] else 0
  {
    if s != [] {
      assert s == [s[0]] + s[1..];
      FilterCount(keep, s[1..], x);
    }
  }

  lemma FilterMultiset<T(!new)>(keep: T -> bool, a: seq<T>, b: seq<T>)
    requires multiset(a) == multiset(b)
    ensures multiset(Filter(keep, a)) == multiset(Filter(keep, b))
  {
    forall x
      ensures multiset(Filter(keep, a))[x] == multiset(Filter(keep, b))[x]
    {
      FilterCount(keep, a, x);
      FilterCount(keep, b, x);
    }
  }

  /** Filtering on what a map gives, before or after the map. */
  lemma {:induction false} FilterMap<T(!new), U(!new)>(f: T -> U, keep: T -> bool, keepImage: U -> bool, s: seq<T>)
    requires forall x :: x in s ==> keep(x) == keepImage(f(x))
    ensures Map(f, Filter(keep, s)) == Filter(keepImage, Map(f, s))
  {
    if s != [] {
      assert s[0] in s && forall x :: x in s[1..] ==> x in s;
      FilterMap(f, keep, keepImage, s[1..]);
      assert Map(f, s)[1..] == Map(f, s[1..]);
    }
  }

  lemma SameDistinct<T(!new)>(a: seq<T>, b: seq<T>)
    requires multiset(a) == multiset(b)
    ensures Members(a) == Members(b) && (Distinct(a) <==> Distinct(b))
  {
    forall x
      ensures x in a <==> x in b
    {
      assert x in multiset(a) <==> x in multiset(b);
    }
    assert |multiset(a)| == |multiset(b)|;
    MembersSize(a);
    MembersSize(b);
  }

  lemma {:induction false} FilterShorter<T(!new)>(keep: T -> bool, s: seq<T>)
    ensures |Filter(keep, s)| <= |s|
    ensures |Filter(keep, s)| == |s| <==> Filter(keep, s) == s
  {
    if s != [] {
      FilterShorter(keep, s[1..]);
      assert s == [s[0]] + s[1..];
    }
  }

  /** Filtering keeps what it keeps in its order. */
  lemma {:induction false} FilterConcat<T(!new)>(keep: T -> bool, a: seq<T>, b: seq<T>)
    ensures Filter(keep, a + b) == Filter(keep, a) + Filter(keep, b)
  {
    if a == [] {
      assert a + b == b;
    } else {
      assert (a + b)[1..] == a[1..] + b;
      FilterConcat(keep, a[1..], b);
    }
  }
}
