/**
 * The array operations the source relies on (`filter`, `find`,
 * `findIndex`, `splice`, and object construction where a later key
 * overwrites an earlier one), each defined once with its contract.
 */
module Seqs {
  import opened Base

  /** `Array.prototype.filter`: the elements satisfying `p`, in order.
      Defined from the back, as a loop that pushes onto a result would build it. */
  function Filter<T(!new)>(s: seq<T>, p: T -> bool): (r: seq<T>)
    ensures |r| <= |s|
    ensures forall x :: x in r <==> x in s && p(x)
    decreases |s|
  {
    if |s| == 0 then []
    else
      var init := Filter(s[..|s| - 1], p);
      if p(s[|s| - 1]) then init + [s[|s| - 1]] else init
  }

  /** Filtering distributes over concatenation, so `Filter` keeps the
      relative order of the elements it keeps. */
  lemma {:induction false} FilterConcat<T(!new)>(a: seq<T>, b: seq<T>, p: T -> bool)
    ensures Filter(a + b, p) == Filter(a, p) + Filter(b, p)
    decreases |b|
  {
    if |b| == 0 {
      assert a + b == a;
    } else {
      var b' := b[..|b| - 1];
      assert (a + b)[..|a + b| - 1] == a + b';
      assert (a + b)[|a + b| - 1] == b[|b| - 1];
      FilterConcat(a, b', p);
    }
  }

  /** When every element passes the test, filtering changes nothing. */
  lemma {:induction false} FilterAll<T(!new)>(s: seq<T>, p: T -> bool)
    requires forall i :: 0 <= i < |s| ==> p(s[i])
    ensures Filter(s, p) == s
    decreases |s|
  {
    if |s| > 0 {
      var init := s[..|s| - 1];
      assert forall i :: 0 <= i < |init| ==> p(init[i]) by {
        forall i | 0 <= i < |init| ensures p(init[i]) {
          assert init[i] == s[i];
        }
      }
      FilterAll(init, p);
      assert init + [s[|s| - 1]] == s;
    }
  }

  /** `Array.prototype.findIndex`, with `-1` rendered as `None`. */
  function FirstIndex<T>(s: seq<T>, p: T -> bool): (r: Option<nat>)
    ensures r.Some? ==> r.value < |s| && p(s[r.value])
    ensures r.Some? ==> forall j :: 0 <= j < r.value ==> !p(s[j])
    ensures r.None? <==> forall j :: 0 <= j < |s| ==> !p(s[j])
    decreases |s|
  {
    if |s| == 0 then None
    else if p(s[0]) then Some(0)
    else
      match FirstIndex(s[1..], p)
      case None => None
      case Some(i) => Some(i + 1)
  }

  /** `Array.prototype.find`, with `undefined` rendered as `None`. */
  function Find<T>(s: seq<T>, p: T -> bool): (r: Option<T>)
    ensures r.Some? <==> exists j :: 0 <= j < |s| && p(s[j])
    ensures r.Some? ==> r.value in s && p(r.value)
    ensures r.Some? ==> exists i :: 0 <= i < |s| && s[i] == r.value && forall j :: 0 <= j < i ==> !p(s[j])
  {
    match FirstIndex(s, p)
    case None => None
    case Some(i) => Some(s[i])
  }

  /** `splice(i, 1)`: the sequence without its `i`-th element. */
  function RemoveAt<T>(s: seq<T>, i: nat): (r: seq<T>)
    requires i < |s|
    ensures |r| == |s| - 1
    ensures forall j :: 0 <= j < i ==> r[j] == s[j]
    ensures forall j :: i <= j < |r| ==> r[j] == s[j + 1]
    ensures multiset(r) + multiset{s[i]} == multiset(s)
  {
    assert s == s[..i] + [s[i]] + s[i + 1..];
    s[..i] + s[i + 1..]
  }

  /** No element occurs twice. */
  predicate Distinct<T(==)>(s: seq<T>) {
    forall i, j :: 0 <= i < j < |s| ==> s[i] != s[j]
  }

  /** `s` with every repeated element dropped, keeping first occurrences,
      built from the back as a loop that skips elements already pushed. */
  function Dedup<T(==,!new)>(s: seq<T>): (r: seq<T>)
    ensures Distinct(r)
    ensures forall x :: x in r <==> x in s
    ensures |r| <= |s|
    decreases |s|
  {
    if |s| == 0 then []
    else
      var init := Dedup(s[..|s| - 1]);
      var x := s[|s| - 1];
      assert forall y :: y in s <==> y in s[..|s| - 1] || y == x by {
        assert s == s[..|s| - 1] + [x];
      }
      if x in init then init else init + [x]
  }

  /** The map an object literal built by `obj[key(x)] = value(x)` for
      each `x` in order ends up as: a later element with the same key
      overwrites an earlier one. */
  function LastWins<T, K(==), V>(s: seq<T>, key: T -> K, value: T -> V): (m: map<K, V>)
    ensures forall i :: 0 <= i < |s| ==> key(s[i]) in m
    ensures |s| > 0 ==> m[key(s[|s| - 1])] == value(s[|s| - 1])
    decreases |s|
  {
    if |s| == 0 then map[]
    else
      var init := LastWins(s[..|s| - 1], key, value);
      assert forall i :: 0 <= i < |s| - 1 ==> key(s[i]) in init by {
        forall i | 0 <= i < |s| - 1 ensures key(s[i]) in init {
          assert s[..|s| - 1][i] == s[i];
        }
      }
      init[key(s[|s| - 1]) := value(s[|s| - 1])]
  }

  /** The keys are exactly the keys of the elements. */
  lemma {:induction false} LastWinsKeys<T, K, V>(s: seq<T>, key: T -> K, value: T -> V, k: K)
    requires k in LastWins(s, key, value)
    ensures exists i :: 0 <= i < |s| && key(s[i]) == k
    decreases |s|
  {
    var init := s[..|s| - 1];
    if key(s[|s| - 1]) != k {
      LastWinsKeys(init, key, value, k);
      var i :| 0 <= i < |init| && key(init[i]) == k;
      assert s[i] == init[i];
    }
  }

  /** A key holds the value of the last element carrying it. */
  lemma {:induction false} LastWinsValue<T, K, V>(s: seq<T>, key: T -> K, value: T -> V, i: nat)
    requires i < |s|
    requires forall j :: i < j < |s| ==> key(s[j]) != key(s[i])
    ensures LastWins(s, key, value)[key(s[i])] == value(s[i])
    decreases |s|
  {
    var init := s[..|s| - 1];
    if i < |s| - 1 {
      assert init[i] == s[i];
      assert forall j :: i < j < |init| ==> key(init[j]) != key(init[i]) by {
        forall j | i < j < |init| ensures key(init[j]) != key(init[i]) {
          assert init[j] == s[j];
        }
      }
      LastWinsValue(init, key, value, i);
    }
  }

  /** Elementwise `Array.prototype.map`. */
  function Map<T, U>(s: seq<T>, f: T -> U): (r: seq<U>)
    ensures |r| == |s|
    ensures forall i :: 0 <= i < |s| ==> r[i] == f(s[i])
  {
    seq(|s|, i requires 0 <= i < |s| => f(s[i]))
  }
}
