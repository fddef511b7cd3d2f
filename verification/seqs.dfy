/**
  Generic list operations that stand behind the ORM queries and the Python comprehensions of
  the applications: filtering, counting, ordering, distinct values and tallies (Counter).
 */
module Seqs {

  /** [x for x in s if p(x)]; also the rows a queryset filter keeps, in table order. */
  function Keep<T(!new)>(s: seq<T>, p: T -> bool): (r: seq<T>)
    ensures |r| <= |s|
    ensures forall x :: x in r <==> x in s && p(x)
    ensures forall k :: 0 <= k < |r| ==> p(r[k])
  {
    if s == [] then []
    else if p(s[0]) then [s[0]] + Keep(s[1..], p) else Keep(s[1..], p)
  }

  /** Filtering keeps every occurrence of the values that pass and none of the others. */
  lemma {:induction false} KeepMultiset<T(!new)>(s: seq<T>, p: T -> bool)
    ensures forall x :: multiset(Keep(s, p))[x] == if p(x) then multiset(s)[x] else 0
  {
    if s != [] {
      assert s == [s[0]] + s[1..];
      KeepMultiset(s[1..], p);
    }
  }

  /** The number of elements of s that satisfy p: sum(1 for x in s if p(x)), or queryset.count(). */
  function Count<T(!new)>(s: seq<T>, p: T -> bool): nat {
    |Keep(s, p)|
  }

  lemma {:induction false} KeepAppend<T(!new)>(a: seq<T>, b: seq<T>, p: T -> bool)
    ensures Keep(a + b, p) == Keep(a, p) + Keep(b, p)
  {
    if a == [] {
      assert a + b == b;
    } else {
      var ab := a + b;
      assert ab[0] == a[0] && ab[1..] == a[1..] + b;
      KeepAppend(a[1..], b, p);
    }
  }

  /** Nothing passes: the filter keeps nothing. */
  lemma {:induction false} KeepNone<T(!new)>(s: seq<T>, p: T -> bool)
    requires forall x :: x in s ==> !p(x)
    ensures Keep(s, p) == []
  {
    if s != [] {
      KeepNone(s[1..], p);
    }
  }

  /** Filtering keeps a relation that holds between every element and each later one. */
  lemma {:induction false} KeepPairwise<T(!new)>(s: seq<T>, p: T -> bool, rel: (T, T) -> bool)
    requires forall i, j :: 0 <= i < j < |s| ==> rel(s[i], s[j])
    ensures forall i, j :: 0 <= i < j < |Keep(s, p)| ==> rel(Keep(s, p)[i], Keep(s, p)[j])
  {
    if s != [] {
      var rest := s[1..];
      KeepPairwise(rest, p, rel);
      var t := Keep(rest, p);
      assert forall a, b :: 0 <= a < b < |t| ==> rel(t[a], t[b]);
      if p(s[0]) {
        var r := [s[0]] + t;
        forall i, j | 0 <= i < j < |r| ensures rel(r[i], r[j]) {
          if i == 0 {
            assert r[j] == t[j - 1] && t[j - 1] in rest;
            var m :| 0 <= m < |rest| && rest[m] == r[j];
            assert s[m + 1] == r[j] && r[0] == s[0];
            assert rel(s[0], s[m + 1]);
          } else {
            assert r[i] == t[i - 1] && r[j] == t[j - 1];
            assert rel(t[i - 1], t[j - 1]);
          }
        }
        assert Keep(s, p) == r;
      }
    }
  }

  /** Filtering by p, then by q, is filtering once by their conjunction r. */
  lemma {:induction false} KeepKeep<T(!new)>(s: seq<T>, p: T -> bool, q: T -> bool, r: T -> bool)
    requires forall x :: r(x) == (p(x) && q(x))
    ensures Keep(Keep(s, p), q) == Keep(s, r)
  {
    if s != [] {
      KeepKeep(s[1..], p, q, r);
    }
  }

  /** Filters that agree on every value keep the same elements. */
  lemma {:induction false} KeepAgree<T(!new)>(s: seq<T>, p: T -> bool, q: T -> bool)
    requires forall x :: p(x) == q(x)
    ensures Keep(s, p) == Keep(s, q)
  {
    if s != [] {
      KeepAgree(s[1..], p, q);
    }
  }

  /** A filter that every element passes keeps the whole sequence. */
  lemma {:induction false} KeepAll<T(!new)>(s: seq<T>, p: T -> bool)
    requires forall x :: x in s ==> p(x)
    ensures Keep(s, p) == s
  {
    if s != [] {
      KeepAll(s[1..], p);
    }
  }

  predicate NoDuplicates<T(==)>(s: seq<T>) {
    forall i, j :: 0 <= i < j < |s| ==> s[i] != s[j]
  }

  /** less is a strict total order on K: irreflexive, transitive, and relating any two distinct values. */
  ghost predicate IsStrictTotalOrder<K(!new)>(less: (K, K) -> bool) {
    && (forall a :: !less(a, a))
    && (forall a, b, c :: less(a, b) && less(b, c) ==> less(a, c))
    && (forall a, b :: a != b ==> less(a, b) || less(b, a))
  }

  predicate StrictlyIncreasing<K>(s: seq<K>, less: (K, K) -> bool) {
    forall i, j :: 0 <= i < j < |s| ==> less(s[i], s[j])
  }

  /** x placed into an increasing sequence, unless it is already there. */
  function InsertDistinct<K(==,!new)>(x: K, s: seq<K>, less: (K, K) -> bool): (r: seq<K>)
    ensures forall y :: y in r <==> y == x || y in s
  {
    if s == [] then [x]
    else if x == s[0] then s
    else if less(x, s[0]) then [x] + s
    else [s[0]] + InsertDistinct(x, s[1..], less)
  }

  /** sorted(set(s)): the distinct values of s in increasing order. */
  function SortedDistinct<K(==,!new)>(s: seq<K>, less: (K, K) -> bool): (r: seq<K>)
    ensures forall y :: y in r <==> y in s
  {
    if s == [] then [] else InsertDistinct(s[0], SortedDistinct(s[1..], less), less)
  }

  lemma {:induction false} InsertDistinctIncreasing<K(!new)>(x: K, s: seq<K>, less: (K, K) -> bool)
    requires IsStrictTotalOrder(less) && StrictlyIncreasing(s, less)
    ensures StrictlyIncreasing(InsertDistinct(x, s, less), less)
  {
    if s != [] && x != s[0] && !less(x, s[0]) {
      InsertDistinctIncreasing(x, s[1..], less);
      var r := InsertDistinct(x, s, less);
      forall y | y in r[1..] ensures less(s[0], y) {
        assert y in InsertDistinct(x, s[1..], less);
      }
    }
  }

  /** The distinct values come out strictly increasing, hence without repetition. */
  lemma {:induction false} SortedDistinctIncreasing<K(!new)>(s: seq<K>, less: (K, K) -> bool)
    requires IsStrictTotalOrder(less)
    ensures StrictlyIncreasing(SortedDistinct(s, less), less)
    ensures NoDuplicates(SortedDistinct(s, less))
  {
    if s != [] {
      SortedDistinctIncreasing(s[1..], less);
      InsertDistinctIncreasing(s[0], SortedDistinct(s[1..], less), less);
    }
  }

  /** s is ordered by key: no element's key is below the key of an element before it. */
  predicate SortedBy<T, K>(s: seq<T>, key: T -> K, less: (K, K) -> bool) {
    forall i, j :: 0 <= i < j < |s| ==> !less(key(s[j]), key(s[i]))
  }

  /** x placed before the first element whose key is not below its own. */
  function InsertBy<T, K>(x: T, s: seq<T>, key: T -> K, less: (K, K) -> bool): (r: seq<T>)
    ensures multiset(r) == multiset(s) + multiset{x}
  {
    if s == [] then [x]
    else if !less(key(s[0]), key(x)) then [x] + s
    else
      assert s == [s[0]] + s[1..];
      [s[0]] + InsertBy(x, s[1..], key, less)
  }

  /**
    queryset.order_by(key): s rearranged so that keys ascend. Elements with equal keys are left in
    their input order, which is one of the orders SQL allows (it leaves ties unspecified).
   */
  function SortBy<T, K>(s: seq<T>, key: T -> K, less: (K, K) -> bool): (r: seq<T>)
    ensures multiset(r) == multiset(s)
  {
    if s == [] then []
    else
      assert s == [s[0]] + s[1..];
      InsertBy(s[0], SortBy(s[1..], key, less), key, less)
  }

  lemma {:induction false} InsertBySorted<T, K(!new)>(x: T, s: seq<T>, key: T -> K, less: (K, K) -> bool)
    requires IsStrictTotalOrder(less) && SortedBy(s, key, less)
    ensures SortedBy(InsertBy(x, s, key, less), key, less)
  {
    if s != [] && less(key(s[0]), key(x)) {
      InsertBySorted(x, s[1..], key, less);
      var t := InsertBy(x, s[1..], key, less);
      forall y | y in t ensures !less(key(y), key(s[0])) {
        assert y in multiset(t);
        assert y == x || y in s[1..];
      }
    }
  }

  /** The ordering is a sorted permutation of the input. */
  lemma {:induction false} SortBySorted<T, K(!new)>(s: seq<T>, key: T -> K, less: (K, K) -> bool)
    requires IsStrictTotalOrder(less)
    ensures SortedBy(SortBy(s, key, less), key, less)
    ensures multiset(SortBy(s, key, less)) == multiset(s)
  {
    if s != [] {
      SortBySorted(s[1..], key, less);
      InsertBySorted(s[0], SortBy(s[1..], key, less), key, less);
    }
  }

  /** The distinct values of s in the order they first occur (the keys of a Counter). */
  function FirstOccurrences<T(==,!new)>(s: seq<T>): (r: seq<T>)
    ensures forall x :: x in r <==> x in s
    ensures NoDuplicates(r)
  {
    if s == [] then []
    else
      var d := FirstOccurrences(s[..|s| - 1]);
      assert forall x :: x in s <==> x in s[..|s| - 1] || x == s[|s| - 1];
      if s[|s| - 1] in d then d else d + [s[|s| - 1]]
  }

  /** [(k, Counter(s)[k]) for k in keys]. */
  function Tally<T(==)>(keys: seq<T>, s: seq<T>): (r: seq<(T, nat)>)
    ensures |r| == |keys|
    ensures forall k :: 0 <= k < |keys| ==> r[k] == (keys[k], multiset(s)[keys[k]])
  {
    if keys == [] then [] else [(keys[0], multiset(s)[keys[0]])] + Tally(keys[1..], s)
  }

  /** The sum of the counts of a tally. */
  function TotalCount<T>(t: seq<(T, nat)>): nat {
    if t == [] then 0 else t[0].1 + TotalCount(t[1..])
  }

  lemma {:induction false} TallyOfNothing<T>(keys: seq<T>)
    ensures TotalCount(Tally(keys, [])) == 0
  {
    if keys != [] {
      TallyOfNothing(keys[1..]);
    }
  }

  lemma {:induction false} TallyCons<T>(keys: seq<T>, x: T, s: seq<T>)
    ensures TotalCount(Tally(keys, [x] + s)) == TotalCount(Tally(keys, s)) + multiset(keys)[x]
  {
    if keys != [] {
      TallyCons(keys[1..], x, s);
      assert keys == [keys[0]] + keys[1..];
    }
  }

  lemma {:induction false} SingleOccurrence<T>(keys: seq<T>, x: T)
    requires NoDuplicates(keys) && x in keys
    ensures multiset(keys)[x] == 1
  {
    assert keys == [keys[0]] + keys[1..];
    if keys[0] == x {
      assert x !in keys[1..];
    } else {
      SingleOccurrence(keys[1..], x);
    }
  }

  /** When the keys are distinct and cover s, the counts of the tally add up to the length of s. */
  lemma {:induction false} TallyTotal<T>(keys: seq<T>, s: seq<T>)
    requires NoDuplicates(keys)
    requires forall x :: x in s ==> x in keys
    ensures TotalCount(Tally(keys, s)) == |s|
  {
    if s == [] {
      TallyOfNothing(keys);
    } else {
      assert s == [s[0]] + s[1..];
      TallyTotal(keys, s[1..]);
      TallyCons(keys, s[0], s[1..]);
      SingleOccurrence(keys, s[0]);
    }
  }
}
