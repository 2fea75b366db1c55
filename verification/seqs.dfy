/**
  Order-preserving selection over sequences. Every query set of the ordering
  workflow (a user's cart, the orders a role may see, the items of one order,
  the menu items of one category) is a `Filter` of a table with a predicate;
  the lemmas below are the algebra the other modules use to relate those
  query sets before and after a state transition.
 */
module Seqs {

  datatype Option<T> = None | Some(value: T)

  /** The first element of `s` that satisfies `p`, if there is one: the
      shape of a lookup by key. */
  function First<T(!new)>(p: T -> bool, s: seq<T>): (r: Option<T>)
    ensures r.Some? ==> r.value in s && p(r.value)
    ensures r.None? <==> forall i :: 0 <= i < |s| ==> !p(s[i])
    decreases |s|
  {
    if |s| == 0 then None
    else if p(s[0]) then Some(s[0])
    else First(p, s[1..])
  }

  /** The elements of `s` that satisfy `p`, in their original order. */
  function Filter<T(==,!new)>(p: T -> bool, s: seq<T>): (r: seq<T>)
    ensures |r| <= |s|
    ensures forall x :: x in r <==> x in s && p(x)
    decreases |s|
  {
    if |s| == 0 then []
    else
      assert s == [s[0]] + s[1..];
      if p(s[0]) then [s[0]] + Filter(p, s[1..]) else Filter(p, s[1..])
  }

  /** Sequences that are permutations of each other have the same members. */
  lemma SameMembers<T>(a: seq<T>, b: seq<T>)
    requires multiset(a) == multiset(b)
    ensures forall x :: x in a <==> x in b
  {
    forall x
      ensures x in a <==> x in b
    {
      assert x in a <==> x in multiset(a);
      assert x in b <==> x in multiset(b);
    }
  }

  /** No two positions of `s` carry the same key: the primary-key
      constraint of a table. */
  predicate KeysDistinct<T, K(==)>(key: T -> K, s: seq<T>)
  {
    forall i, j :: 0 <= i < j < |s| ==> key(s[i]) != key(s[j])
  }

  /** In a table with distinct keys, two rows with the same key are the same
      row. */
  lemma SameKeySameRow<T, K>(key: T -> K, s: seq<T>, x: T, y: T)
    requires KeysDistinct(key, s)
    requires x in s && y in s && key(x) == key(y)
    ensures x == y
  {
  }

  /** A selection from a table with distinct keys has distinct keys. */
  lemma {:induction false} FilterKeysDistinct<T(!new), K>(p: T -> bool, key: T -> K, s: seq<T>)
    requires KeysDistinct(key, s)
    ensures KeysDistinct(key, Filter(p, s))
    decreases |s|
  {
    if |s| > 0 {
      var rest := Filter(p, s[1..]);
      FilterKeysDistinct(p, key, s[1..]);
      if p(s[0]) {
        var r := [s[0]] + rest;
        forall i, j | 0 <= i < j < |r|
          ensures key(r[i]) != key(r[j])
        {
          if i == 0 {
            assert r[j] == rest[j - 1];
            assert rest[j - 1] in s[1..];
            var k :| 0 <= k < |s[1..]| && s[1..][k] == rest[j - 1];
            assert s[k + 1] == r[j];
          } else {
            assert r[i] == rest[i - 1] && r[j] == rest[j - 1];
          }
        }
      }
    }
  }

  /** In a table with distinct keys at most one row satisfies a predicate
      that fixes the key. */
  lemma {:induction false} AtMostOneWithKey<T(!new), K>(p: T -> bool, key: T -> K, k: K, s: seq<T>)
    requires KeysDistinct(key, s)
    requires forall x :: p(x) ==> key(x) == k
    ensures |Filter(p, s)| <= 1
    decreases |s|
  {
    if |s| > 0 {
      if p(s[0]) {
        forall i | 0 <= i < |s[1..]|
          ensures !p(s[1..][i])
        {
          assert key(s[0]) != key(s[i + 1]);
        }
        FilterNone(p, s[1..]);
      } else {
        AtMostOneWithKey(p, key, k, s[1..]);
      }
    }
  }

  /** Selection distributes over concatenation: rows appended to a table
      only ever extend a query set at its end. */
  lemma {:induction false} FilterAppend<T(!new)>(p: T -> bool, a: seq<T>, b: seq<T>)
    ensures Filter(p, a + b) == Filter(p, a) + Filter(p, b)
    decreases |a|
  {
    if |a| == 0 {
      assert a + b == b;
    } else {
      var ab := a + b;
      assert ab[0] == a[0];
      assert ab[1..] == a[1..] + b;
      FilterAppend(p, a[1..], b);
      if p(a[0]) {
        calc {
          Filter(p, ab);
          [a[0]] + Filter(p, a[1..] + b);
          [a[0]] + (Filter(p, a[1..]) + Filter(p, b));
          ([a[0]] + Filter(p, a[1..])) + Filter(p, b);
        }
      }
    }
  }

  /** Selecting with a predicate every element satisfies changes nothing. */
  lemma {:induction false} FilterAll<T(!new)>(p: T -> bool, s: seq<T>)
    requires forall i :: 0 <= i < |s| ==> p(s[i])
    ensures Filter(p, s) == s
    decreases |s|
  {
    if |s| > 0 {
      FilterAll(p, s[1..]);
      assert [s[0]] + s[1..] == s;
    }
  }

  /** Selecting with a predicate no element satisfies yields nothing. */
  lemma {:induction false} FilterNone<T(!new)>(p: T -> bool, s: seq<T>)
    requires forall i :: 0 <= i < |s| ==> !p(s[i])
    ensures Filter(p, s) == []
    decreases |s|
  {
    if |s| > 0 {
      FilterNone(p, s[1..]);
    }
  }

  /** Narrowing an already narrowed selection: when `p` implies `q`, first
      keeping the `q` rows and then the `p` rows keeps exactly the `p` rows. */
  lemma {:induction false} FilterNarrow<T(!new)>(p: T -> bool, q: T -> bool, s: seq<T>)
    requires forall x :: p(x) ==> q(x)
    ensures Filter(p, Filter(q, s)) == Filter(p, s)
    decreases |s|
  {
    if |s| > 0 {
      FilterNarrow(p, q, s[1..]);
      if q(s[0]) {
        assert Filter(q, s) == [s[0]] + Filter(q, s[1..]);
        assert ([s[0]] + Filter(q, s[1..]))[1..] == Filter(q, s[1..]);
      }
    }
  }

  /** Splitting a table by a predicate and its complement loses no row and
      invents none. */
  lemma {:induction false} FilterPartition<T(!new)>(p: T -> bool, q: T -> bool, s: seq<T>)
    requires forall x :: q(x) <==> !p(x)
    ensures multiset(Filter(p, s)) + multiset(Filter(q, s)) == multiset(s)
    decreases |s|
  {
    if |s| > 0 {
      FilterPartition(p, q, s[1..]);
      assert s == [s[0]] + s[1..];
      assert multiset(s) == multiset{s[0]} + multiset(s[1..]);
    }
  }
}
