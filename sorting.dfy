/**
 * The argsort that both the hard-example selection and the merge ranking are
 * built on: the indices of a vector, ordered so that the values they select
 * ascend. Which of several equal values comes first is left open, as the
 * underlying sort does not promise a tie order.
 */
module Sorting {

  /** The index list 0, 1, ..., n-1. */
  function Range(n: nat): (r: seq<nat>)
    ensures |r| == n && forall i :: 0 <= i < n ==> r[i] == i
  {
    seq(n, i => i)
  }

  predicate Distinct<T(==)>(s: seq<T>) {
    forall i, j :: 0 <= i < j < |s| ==> s[i] != s[j]
  }

  /** Every index in s selects an entry of v. */
  predicate InBounds(s: seq<nat>, v: seq<real>) {
    forall i :: 0 <= i < |s| ==> s[i] < |v|
  }

  /** The values that s selects from v ascend. */
  predicate SortedBy(s: seq<nat>, v: seq<real>)
    requires InBounds(s, v)
  {
    forall i, j :: 0 <= i < j < |s| ==> v[s[i]] <= v[s[j]]
  }

  /** Places index x into the index list s in front of the first entry whose value is not below x's. */
  function Insert(x: nat, s: seq<nat>, v: seq<real>): (r: seq<nat>)
    requires x < |v| && InBounds(s, v)
    ensures |r| == |s| + 1
    ensures multiset(r) == multiset(s) + multiset{x}
  {
    if s == [] || v[x] <= v[s[0]] then [x] + s
    else
      assert s == [s[0]] + s[1..];
      [s[0]] + Insert(x, s[1..], v)
  }

  lemma {:induction false} InsertSorted(x: nat, s: seq<nat>, v: seq<real>)
    requires x < |v| && InBounds(s, v) && SortedBy(s, v)
    ensures InBounds(Insert(x, s, v), v) && SortedBy(Insert(x, s, v), v)
  {
    var r := Insert(x, s, v);
    if s == [] || v[x] <= v[s[0]] {
      assert r == [x] + s;
      assert forall j :: 0 < j < |r| ==> r[j] == s[j - 1];
    } else {
      var rest := Insert(x, s[1..], v);
      InsertSorted(x, s[1..], v);
      assert r == [s[0]] + rest;
      assert forall j :: 0 <= j < |rest| ==> v[s[0]] <= v[rest[j]] by {
        forall j | 0 <= j < |rest| ensures v[s[0]] <= v[rest[j]] {
          assert rest[j] in multiset(rest);
          assert rest[j] == x || rest[j] in s[1..];
        }
      }
      assert forall j :: 0 < j < |r| ==> r[j] == rest[j - 1];
    }
  }

  lemma {:induction false} InsertDistinct(x: nat, s: seq<nat>, v: seq<real>)
    requires x < |v| && InBounds(s, v) && Distinct(s) && x !in s
    ensures Distinct(Insert(x, s, v))
  {
    if s != [] && v[x] > v[s[0]] {
      var rest := Insert(x, s[1..], v);
      InsertDistinct(x, s[1..], v);
      assert s[0] !in multiset(rest);
    }
  }

  /** Insertion sort of the index list s by the values it selects from v. */
  function SortBy(s: seq<nat>, v: seq<real>): (r: seq<nat>)
    requires InBounds(s, v)
    ensures |r| == |s| && multiset(r) == multiset(s)
  {
    if s == [] then [] else
      var rest := SortBy(s[1..], v);
      assert InBounds(rest, v) by {
        forall i | 0 <= i < |rest| ensures rest[i] < |v| {
          assert rest[i] in multiset(s[1..]);
        }
      }
      assert s == [s[0]] + s[1..];
      Insert(s[0], rest, v)
  }

  lemma {:induction false} SortBySorted(s: seq<nat>, v: seq<real>)
    requires InBounds(s, v)
    ensures InBounds(SortBy(s, v), v) && SortedBy(SortBy(s, v), v)
    ensures Distinct(s) ==> Distinct(SortBy(s, v))
  {
    if s != [] {
      var rest := SortBy(s[1..], v);
      SortBySorted(s[1..], v);
      InsertSorted(s[0], rest, v);
      if Distinct(s) {
        assert s[0] !in multiset(rest);
        InsertDistinct(s[0], rest, v);
      }
    }
  }

  /** numpy/Theano argsort: each index of v exactly once, in ascending order of value. */
  function ArgSort(v: seq<real>): (r: seq<nat>)
    ensures |r| == |v| && InBounds(r, v) && SortedBy(r, v) && Distinct(r)
    ensures forall i: nat :: i in r <==> i < |v|
  {
    var r := SortBy(Range(|v|), v);
    SortBySorted(Range(|v|), v);
    forall i: nat ensures i in r <==> i < |v| {
      assert i in r <==> i in multiset(Range(|v|));
      if i < |v| {
        assert Range(|v|)[i] == i;
      }
    }
    r
  }

  /** The tail of a sorted, distinct index list from position h on is again sorted and distinct. */
  lemma SortedSuffix(s: seq<nat>, v: seq<real>, h: nat)
    requires h <= |s| && InBounds(s, v) && SortedBy(s, v) && Distinct(s)
    ensures InBounds(s[h..], v) && SortedBy(s[h..], v) && Distinct(s[h..])
  {
    assert forall i :: 0 <= i < |s| - h ==> s[h..][i] == s[h + i];
  }

  /** The number of entries of s that satisfy P. */
  function Count(s: seq<nat>, P: nat -> bool): nat
  {
    if s == [] then 0 else (if P(s[0]) then 1 else 0) + Count(s[1..], P)
  }

  lemma {:induction false} CountAppend(a: seq<nat>, b: seq<nat>, P: nat -> bool)
    ensures Count(a + b, P) == Count(a, P) + Count(b, P)
  {
    if a == [] {
      assert a + b == b;
    } else {
      assert (a + b)[0] == a[0] && (a + b)[1..] == a[1..] + b;
      CountAppend(a[1..], b, P);
    }
  }

  lemma {:induction false} CountInsert(x: nat, s: seq<nat>, v: seq<real>, P: nat -> bool)
    requires x < |v| && InBounds(s, v)
    ensures Count(Insert(x, s, v), P) == Count(s, P) + (if P(x) then 1 else 0)
  {
    if s != [] && v[x] > v[s[0]] {
      CountInsert(x, s[1..], v, P);
      assert Insert(x, s, v)[1..] == Insert(x, s[1..], v);
    }
  }

  /** Sorting does not change how many entries satisfy P. */
  lemma {:induction false} CountSortBy(s: seq<nat>, v: seq<real>, P: nat -> bool)
    requires InBounds(s, v)
    ensures Count(SortBy(s, v), P) == Count(s, P)
  {
    if s != [] {
      var rest := SortBy(s[1..], v);
      SortBySorted(s[1..], v);
      assert SortBy(s, v) == Insert(s[0], rest, v);
      CountSortBy(s[1..], v, P);
      CountInsert(s[0], rest, v, P);
    }
  }

  /**
   * In a list sorted by value where exactly the entries below a threshold
   * satisfy P, the entries satisfying P form the prefix of length Count(s, P).
   */
  lemma {:induction false} SortedSplit(s: seq<nat>, v: seq<real>, P: nat -> bool, t: real)
    requires InBounds(s, v) && SortedBy(s, v)
    requires forall i :: 0 <= i < |s| ==> (P(s[i]) <==> v[s[i]] < t)
    ensures Count(s, P) <= |s|
    ensures forall i :: 0 <= i < Count(s, P) ==> P(s[i])
    ensures forall i :: Count(s, P) <= i < |s| ==> !P(s[i])
  {
    if s != [] {
      SortedSplit(s[1..], v, P, t);
      if !P(s[0]) {
        if Count(s[1..], P) > 0 {
          assert false;
        }
      }
    }
  }
}
