/**
 * Random question selection: `getRandomInt`, the rejection sampler
 * `getUniqueRandomArr`, `getRandomArr`, and mapping sampled indices to
 * pool entries. `Math.random()` is an oracle: a finite stream of draws
 * in [0, 1). A sampler that runs out of draws before finishing is
 * `Starved`; a sampler that is starved for every stream never returns.
 */
module Sampling {
  import opened Base
  import opened Seqs

  /** What `Math.random()` promises of each draw. */
  predicate IsRandomStream(randoms: seq<real>) {
    forall i :: 0 <= i < |randoms| ==> 0.0 <= randoms[i] < 1.0
  }

  /** Every value lies in [0, max). */
  predicate InRange(values: seq<int>, max: int) {
    forall i :: 0 <= i < |values| ==> 0 <= values[i] < max
  }

  lemma ScaledDrawBelow(u: real, max: int)
    requires 0.0 <= u < 1.0 && max > 0
    ensures 0.0 <= u * max as real < max as real
  {
  }

  /** `getRandomInt(max)`: `Math.floor(Math.random() * max)`. */
  function RandomInt(u: real, max: int): (r: int)
    ensures 0.0 <= u < 1.0 && max > 0 ==> 0 <= r < max
  {
    if 0.0 <= u < 1.0 && max > 0 then
      ScaledDrawBelow(u, max);
      (u * max as real).Floor
    else
      (u * max as real).Floor
  }

  /** The integers a stream of draws turns into. */
  function Draws(randoms: seq<real>, max: int): (r: seq<int>)
    ensures |r| == |randoms|
    ensures forall i :: 0 <= i < |randoms| ==> r[i] == RandomInt(randoms[i], max)
  {
    Map(randoms, (u: real) => RandomInt(u, max))
  }

  lemma DrawsInRange(randoms: seq<real>, max: int)
    requires IsRandomStream(randoms) && max > 0
    ensures InRange(Draws(randoms, max), max)
  {
  }

  lemma DrawsExtend(randoms: seq<real>, max: int, i: nat)
    requires i < |randoms|
    ensures Draws(randoms[..i + 1], max) == Draws(randoms[..i], max) + [RandomInt(randoms[i], max)]
  {
  }

  /** How the rejection loop ended: it collected enough values after
      consuming `used` draws, or the stream ended first. */
  datatype Sample = Sampled(values: seq<int>, used: nat) | Starved(values: seq<int>)

  /** The `while (res.length < numElems)` loop of `getUniqueRandomArr`,
      from the state after `i` draws. */
  function Collect(numElems: int, max: int, randoms: seq<real>, res: seq<int>, i: nat): (r: Sample)
    requires IsRandomStream(randoms) && max > 0
    requires i <= |randoms|
    requires res == Dedup(Draws(randoms[..i], max))
    requires |res| <= numElems
    ensures r.Sampled? ==> i <= r.used <= |randoms| && |r.values| == numElems
    ensures r.Sampled? ==> r.values == Dedup(Draws(randoms[..r.used], max))
    ensures r.Starved? ==> |r.values| < numElems && r.values == Dedup(Draws(randoms, max))
    decreases |randoms| - i
  {
    if |res| >= numElems then Sampled(res, i)
    else if i == |randoms| then
      assert randoms[..i] == randoms;
      Starved(res)
    else
      var e := RandomInt(randoms[i], max);
      DrawsExtend(randoms, max, i);
      var next := if e in res then res else res + [e];
      assert next == Dedup(Draws(randoms[..i + 1], max)) by {
        var d := Draws(randoms[..i + 1], max);
        assert d[..|d| - 1] == Draws(randoms[..i], max);
        assert d[|d| - 1] == e;
      }
      Collect(numElems, max, randoms, next, i + 1)
  }

  /** Dropping repeats keeps a sequence inside [0, max). */
  lemma DedupInRange(s: seq<int>, max: int)
    requires InRange(s, max)
    ensures InRange(Dedup(s), max)
  {
    var d := Dedup(s);
    forall i | 0 <= i < |d| ensures 0 <= d[i] < max {
      assert d[i] in s;
    }
  }

  lemma SampleInRange(s: Sample, max: int, randoms: seq<real>)
    requires IsRandomStream(randoms) && max > 0
    requires s.Sampled? ==> s.used <= |randoms| && s.values == Dedup(Draws(randoms[..s.used], max))
    requires s.Starved? ==> s.values == Dedup(Draws(randoms, max))
    ensures InRange(s.values, max)
  {
    var all := if s.Sampled? then randoms[..s.used] else randoms;
    assert IsRandomStream(all);
    DrawsInRange(all, max);
    DedupInRange(Draws(all, max), max);
  }

  /** `getUniqueRandomArr(numElems, max)`: `numElems` distinct integers in
      [0, max), drawn by rejecting repeats. */
  function UniqueRandomArr(numElems: int, max: int, randoms: seq<real>): (r: Result<Sample>)
    requires IsRandomStream(randoms)
    ensures numElems <= 0 ==> r == Throw("numElems < 0")
    ensures numElems > 0 && max <= 0 ==> r == Throw("max < 0")
    ensures numElems > 0 && max > 0 ==> r.Ok?
    ensures r.Ok? ==> Distinct(r.value.values) && InRange(r.value.values, max)
    ensures r.Ok? && r.value.Sampled? ==> |r.value.values| == numElems && r.value.used <= |randoms|
    ensures r.Ok? && r.value.Sampled? ==> r.value.values == Dedup(Draws(randoms[..r.value.used], max))
    ensures r.Ok? && r.value.Starved? ==> |r.value.values| < numElems
    ensures r.Ok? && r.value.Starved? ==> r.value.values == Dedup(Draws(randoms, max))
  {
    if numElems <= 0 then Throw("numElems < 0")
    else if max <= 0 then Throw("max < 0")
    else
      assert randoms[..0] == [];
      var s := Collect(numElems, max, randoms, [], 0);
      SampleInRange(s, max, randoms);
      Ok(s)
  }

  /** The integers in [0, n). */
  function Below(n: nat): (r: set<int>)
    ensures forall i :: i in r <==> 0 <= i < n
    ensures |r| == n
  {
    if n == 0 then {} else Below(n - 1) + {n - 1}
  }

  /** A sequence without repeats has as many distinct elements as entries. */
  lemma {:induction false} DistinctCard(s: seq<int>)
    requires Distinct(s)
    ensures |set x | x in s| == |s|
    decreases |s|
  {
    if |s| > 0 {
      var init := s[..|s| - 1];
      DistinctCard(init);
      assert (set x | x in s) == (set x | x in init) + {s[|s| - 1]} by {
        assert s == init + [s[|s| - 1]];
      }
      assert s[|s| - 1] !in init;
    }
  }

  lemma SubsetCard(a: set<int>, b: set<int>)
    requires a <= b
    ensures |a| <= |b|
  {
    assert b == a + (b - a);
    assert a * (b - a) == {};
  }

  /** Pigeonhole: at most `max` distinct values fit in [0, max). */
  lemma DistinctInRangeBound(s: seq<int>, max: nat)
    requires Distinct(s) && InRange(s, max)
    ensures |s| <= max
  {
    DistinctCard(s);
    var values := set x | x in s;
    assert values <= Below(max);
    SubsetCard(values, Below(max));
  }

  /** When more distinct values are asked for than exist below `max`, no
      stream of draws, however long, lets the loop finish: the sampler
      does not terminate, and nothing rejects the request up front. */
  lemma UniqueRandomArrNeverFinishesWhenTooMany(numElems: int, max: int, randoms: seq<real>)
    requires IsRandomStream(randoms)
    requires 0 < max < numElems
    ensures UniqueRandomArr(numElems, max, randoms).Ok?
    ensures UniqueRandomArr(numElems, max, randoms).value.Starved?
  {
    var r := UniqueRandomArr(numElems, max, randoms);
    if r.value.Sampled? {
      DistinctInRangeBound(r.value.values, max);
      assert false;
    }
  }

  /** `getRandomArr(numElems, max)`: `numElems` independent draws, repeats
      allowed; `new Array(n)` throws a RangeError for a negative length. */
  function RandomArr(numElems: int, max: int, randoms: seq<real>): (r: Result<seq<int>>)
    requires IsRandomStream(randoms)
    requires numElems >= 0 ==> numElems <= |randoms|
    ensures r.Ok? <==> numElems >= 0
    ensures r.Ok? ==> |r.value| == numElems
    ensures r.Ok? ==> forall i :: 0 <= i < numElems ==> r.value[i] == RandomInt(randoms[i], max)
    ensures r.Ok? && max > 0 ==> InRange(r.value, max)
  {
    if numElems < 0 then Throw("RangeError: Invalid array length")
    else
      var draws := randoms[..numElems];
      assert IsRandomStream(draws);
      if max > 0 then
        DrawsInRange(draws, max);
        Ok(Draws(draws, max))
      else
        Ok(Draws(draws, max))
  }

  /** Unlike the unique sampler, `getRandomArr` may repeat a value. */
  lemma RandomArrMayRepeat()
    ensures RandomArr(2, 3, [0.1, 0.2]) == Ok([0, 0])
  {
    var r := RandomArr(2, 3, [0.1, 0.2]);
    assert RandomInt(0.1, 3) == 0;
    assert RandomInt(0.2, 3) == 0;
    assert r.value[0] == 0 && r.value[1] == 0;
    assert r.value == [0, 0];
  }

  /** What `getRandomCountries` returns: the picked entries, or nothing
      because the sampler never returned within the stream. */
  datatype Picked<T> = Picked(items: seq<T>) | Hung

  /** `getRandomCountries(num)`: `getUniqueRandomArr(num, pool.length)`
      mapped through `getCountry(i) = pool[i]`. */
  function Pick<T>(pool: seq<T>, num: int, randoms: seq<real>): (r: Result<Picked<T>>)
    requires IsRandomStream(randoms)
    ensures r.Throw? <==> num <= 0 || |pool| == 0
    ensures r.Ok? && r.value.Picked? ==> |r.value.items| == num
    ensures r.Ok? && r.value.Picked? ==>
              var s := UniqueRandomArr(num, |pool|, randoms).value;
              s.Sampled? && forall j :: 0 <= j < num ==> r.value.items[j] == pool[s.values[j]]
    ensures r.Ok? && r.value.Hung? ==> UniqueRandomArr(num, |pool|, randoms).value.Starved?
  {
    var s :- UniqueRandomArr(num, |pool|, randoms);
    if s.Starved? then Ok(Hung)
    else
      var values := s.values;
      Ok(Picked(seq(|values|, j requires 0 <= j < |values| => pool[values[j]])))
  }

  /** Distinct indices into a pool with no repeated identity pick entries
      with pairwise different identities. */
  lemma PickDistinctIdentities<T, K>(pool: seq<T>, num: int, randoms: seq<real>, id: T -> K)
    requires IsRandomStream(randoms)
    requires forall i, j :: 0 <= i < j < |pool| ==> id(pool[i]) != id(pool[j])
    ensures var p := Pick(pool, num, randoms);
            p.Ok? && p.value.Picked? ==>
              forall i, j :: 0 <= i < j < |p.value.items| ==> id(p.value.items[i]) != id(p.value.items[j])
  {
    var p := Pick(pool, num, randoms);
    if p.Ok? && p.value.Picked? {
      var items := p.value.items;
      var s := UniqueRandomArr(num, |pool|, randoms).value;
      forall i, j | 0 <= i < j < |items| ensures id(items[i]) != id(items[j]) {
        assert s.values[i] != s.values[j];
        if s.values[i] < s.values[j] {
          assert id(pool[s.values[i]]) != id(pool[s.values[j]]);
        } else {
          assert id(pool[s.values[j]]) != id(pool[s.values[i]]);
        }
      }
    }
  }

  /** `getRandomCountry()`: one draw indexed into the pool; indexing an
      empty pool yields `undefined`. */
  function PickOne<T>(pool: seq<T>, u: real): (r: Option<T>)
    requires 0.0 <= u < 1.0
    ensures r.Some? <==> |pool| > 0
    ensures r.Some? ==> r.value in pool
  {
    if |pool| == 0 then None else Some(pool[RandomInt(u, |pool|)])
  }
}
