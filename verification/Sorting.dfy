/** Sorting of strings: `sort()` on arrays, which may repeat, and on the key set of an object. */
module Sorting {
  import opened Unicode

  type Order = (string, string) -> bool

  /** No later element strictly precedes an earlier one. */
  ghost predicate Sorted(s: seq<string>)
  {
    forall i, j :: 0 <= i < j < |s| ==> !Before(s[j], s[i])
  }

  function Insert(x: string, s: seq<string>): (r: seq<string>)
    ensures multiset(r) == multiset(s) + multiset{x}
  {
    if s == [] || !Before(s[0], x) then [x] + s
    else
      assert s == [s[0]] + s[1..];
      [s[0]] + Insert(x, s[1..])
  }

  /** `[...s].sort(compareStrings)`, and equally `s.sort()` without a comparator. */
  function Sort(s: seq<string>): (r: seq<string>)
    ensures multiset(r) == multiset(s)
  {
    if s == [] then []
    else
      assert s == [s[0]] + s[1..];
      Insert(s[0], Sort(s[1..]))
  }

  lemma {:induction false} InsertSorted(x: string, s: seq<string>)
    requires Sorted(s)
    ensures Sorted(Insert(x, s))
  {
    if s != [] {
      var rest := Insert(x, s[1..]);
      if Before(s[0], x) {
        InsertSorted(x, s[1..]);
        forall j | 0 <= j < |rest|
          ensures !Before(rest[j], s[0])
        {
          assert rest[j] in multiset(rest);
          assert rest[j] == x || rest[j] in s[1..];
          BeforeIsStrictTotal();
        }
      } else {
        forall j | 0 <= j < |s|
          ensures !Before(s[j], x)
        {
          BeforeIsStrictTotal();
        }
      }
    }
  }

  lemma {:induction false} SortSorted(s: seq<string>)
    ensures Sorted(Sort(s))
  {
    if s != [] {
      SortSorted(s[1..]);
      InsertSorted(s[0], Sort(s[1..]));
    }
  }

  lemma SortedHead(a: seq<string>, b: seq<string>)
    requires Sorted(a) && Sorted(b) && multiset(a) == multiset(b) && a != []
    ensures b != [] && a[0] == b[0] && Sorted(a[1..]) && Sorted(b[1..])
  {
    hide Before;
    assert a[0] in multiset(b) && |multiset(a)| == |multiset(b)|;
    assert b[0] in multiset(a);
    BeforeIsStrictTotal();
  }

  lemma WithoutHead(a: seq<string>)
    requires a != []
    ensures multiset(a[1..]) == multiset(a) - multiset{a[0]}
  {
    assert a == [a[0]] + a[1..];
  }

  lemma {:induction false} SortedUnique(a: seq<string>, b: seq<string>)
    requires Sorted(a) && Sorted(b) && multiset(a) == multiset(b)
    ensures a == b
  {
    hide Sorted;
    if a == [] {
      assert |multiset(b)| == 0;
    } else {
      SortedHead(a, b);
      WithoutHead(a);
      WithoutHead(b);
      SortedUnique(a[1..], b[1..]);
      assert a == [a[0]] + a[1..] && b == [b[0]] + b[1..];
    }
  }

  /** The sort-and-compare idiom of the sources decides exactly "is a permutation of". */
  lemma SortedEqualIffPermutation(a: seq<string>, b: seq<string>)
    ensures Sort(a) == Sort(b) <==> multiset(a) == multiset(b)
  {
    SortSorted(a);
    SortSorted(b);
    if multiset(a) == multiset(b) {
      SortedUnique(Sort(a), Sort(b));
    }
  }

  // ---- The keys of an object, in a given order ----

  ghost predicate Ascending(less: Order, s: seq<string>)
  {
    forall i, j :: 0 <= i < j < |s| ==> less(s[i], s[j])
  }

  ghost predicate Least(less: Order, k: string, s: set<string>)
  {
    k in s && forall o :: o in s && o != k ==> less(k, o)
  }

  lemma {:induction false} LeastExists(less: Order, s: set<string>)
    requires StrictTotal(less) && s != {}
    ensures exists k :: Least(less, k, s)
  {
    var k :| k in s;
    if s == {k} {
      assert Least(less, k, s);
    } else {
      LeastExists(less, s - {k});
      var l :| Least(less, l, s - {k});
      forall o | o in s && o != k && o != l
        ensures less(l, o)
      {
        assert o in s - {k};
      }
      assert less(k, l) ==> Least(less, k, s);
      assert less(l, k) ==> Least(less, l, s);
    }
  }

  lemma AscendingCons(less: Order, k: string, rest: seq<string>)
    requires Ascending(less, rest) && forall o :: o in rest ==> less(k, o)
    ensures Ascending(less, [k] + rest)
  {
  }

  /** The members of `s`, each once, in ascending order. */
  function Ordered(less: Order, s: set<string>): (r: seq<string>)
    requires StrictTotal(less)
    ensures forall k :: k in r <==> k in s
    ensures Ascending(less, r)
  {
    if s == {} then []
    else
      LeastExists(less, s);
      assert exists k :: k in s && forall o :: o in s && o != k ==> less(k, o) by {
        var k :| Least(less, k, s);
      }
      var k :| k in s && forall o :: o in s && o != k ==> less(k, o);
      var rest := Ordered(less, s - {k});
      AscendingCons(less, k, rest);
      [k] + rest
  }

  /** `Ordered` is the only enumeration in that order, so it does not depend on insertion order. */
  lemma {:induction false} OrderedUnique(less: Order, s: set<string>, r: seq<string>)
    requires StrictTotal(less)
    requires forall k :: k in r <==> k in s
    requires Ascending(less, r)
    ensures r == Ordered(less, s)
  {
    var o := Ordered(less, s);
    if r == [] {
      assert forall k :: k !in s;
      assert s == {};
    } else {
      assert r[0] in s && o[0] in r;
      assert r[0] == o[0];
      forall k
        ensures k in r[1..] <==> k in s - {o[0]}
      {
        assert r == [r[0]] + r[1..];
        if k in r[1..] {
          var i :| 0 <= i < |r| - 1 && r[1..][i] == k;
          assert less(r[0], r[i + 1]);
        }
      }
      OrderedUnique(less, s - {o[0]}, r[1..]);
      assert r == [r[0]] + r[1..];
    }
  }

  // ---- Key orders, as the encoders use them ----

  /** Lists the keys of an object, in some order. */
  type KeyOrder = set<string> -> seq<string>

  ghost predicate Enumerates(keysOf: KeyOrder)
  {
    forall s: set<string>, k: string :: k in keysOf(s) <==> k in s
  }

  /** `Object.keys(value).sort()`. */
  function SortedKeys(s: set<string>): (r: seq<string>)
    ensures forall k :: k in r <==> k in s
    ensures Ascending(Before, r)
  {
    BeforeIsStrictTotal();
    Ordered(Before, s)
  }

  /** However the keys were inserted, sorting them gives `SortedKeys`. */
  lemma SortedKeysOfAnyEnumeration(s: set<string>, keys: seq<string>)
    requires forall k :: k in keys <==> k in s
    requires forall i, j :: 0 <= i < j < |keys| ==> keys[i] != keys[j]
    ensures Sort(keys) == SortedKeys(s)
  {
    BeforeIsStrictTotal();
    var r := Sort(keys);
    SortSorted(keys);
    forall k
      ensures k in r <==> k in s
    {
      assert k in multiset(r) <==> k in multiset(keys);
    }
    forall i, j | 0 <= i < j < |r|
      ensures Before(r[i], r[j])
    {
      DistinctCounts(keys, r[i]);
      if r[i] == r[j] {
        CountsTwice(r, i, j);
      }
    }
    OrderedUnique(Before, s, r);
  }

  lemma {:induction false} DistinctCounts(keys: seq<string>, k: string)
    requires forall i, j :: 0 <= i < j < |keys| ==> keys[i] != keys[j]
    ensures multiset(keys)[k] <= 1
  {
    if keys != [] {
      assert keys == [keys[0]] + keys[1..];
      DistinctCounts(keys[1..], k);
      assert keys[0] !in keys[1..];
    }
  }

  lemma CountsTwice(s: seq<string>, i: nat, j: nat)
    requires i < j < |s| && s[i] == s[j]
    ensures multiset(s)[s[i]] >= 2
  {
    assert s == s[..j] + s[j..];
    assert s[i] == s[..j][i] && s[j] == s[j..][0];
    assert s[i] in multiset(s[..j]) && s[i] in multiset(s[j..]);
  }
}
