/**
 * The first-generation `GeoData` instance: the playable countries of
 * the 50m dataset and lookups over them. Its random helpers are the
 * ones in `Sampling`.
 */
module EarlyGeoData {
  import opened Base
  import opened Seqs
  import opened Features
  import Sampling

  predicate IsPlayable(f: Feature) {
    f.properties.TYPE == Country || f.properties.TYPE == SovereignCountry
  }

  /** The instance state: the playable countries and their count. */
  datatype EarlyGeoData = EarlyGeoData(countries: seq<Feature>, numCountries: nat)

  /** The constructor: exactly the `'Country'` and `'Sovereign country'`
      features, in dataset order, and their number. */
  function Load(features: seq<Feature>): (g: EarlyGeoData)
    ensures g.numCountries == |g.countries| <= |features|
    ensures forall f :: f in g.countries <==> f in features && IsPlayable(f)
  {
    var countries := Filter(features, IsPlayable);
    EarlyGeoData(countries, |countries|)
  }

  /** Loading two datasets one after the other keeps each one's countries
      in order. */
  lemma LoadConcat(a: seq<Feature>, b: seq<Feature>)
    ensures Load(a + b).countries == Load(a).countries + Load(b).countries
  {
    FilterConcat(a, b, IsPlayable);
  }

  /** `findCountry(ISO_A3)`: the first country with that code, or `undefined`. */
  function FindCountry(g: EarlyGeoData, iso: string): (r: Option<Feature>)
    ensures r.Some? ==> r.value in g.countries && r.value.properties.ISO_A3 == iso
    ensures r.Some? ==> exists i :: 0 <= i < |g.countries| && g.countries[i] == r.value &&
                                    (forall j :: 0 <= j < i ==> g.countries[j].properties.ISO_A3 != iso)
    ensures r.None? <==> forall i :: 0 <= i < |g.countries| ==> g.countries[i].properties.ISO_A3 != iso
  {
    var p := (f: Feature) => f.properties.ISO_A3 == iso;
    match FirstIndex(g.countries, p)
    case None => None
    case Some(i) => Some(g.countries[i])
  }

  /** `getRandomCountries(num)`: the sampled indices mapped through
      `getCountry(i) = countries[i]`, in the order they were drawn. */
  function GetRandomCountries(g: EarlyGeoData, num: int, randoms: seq<real>): (r: Result<Sampling.Picked<Feature>>)
    requires Sampling.IsRandomStream(randoms)
    requires g.numCountries == |g.countries|
    ensures r.Throw? <==> num <= 0 || g.numCountries == 0
    ensures r.Ok? && r.value.Picked? ==> |r.value.items| == num
    ensures r.Ok? && r.value.Picked? ==>
              var s := Sampling.UniqueRandomArr(num, |g.countries|, randoms).value;
              s.Sampled? && forall j :: 0 <= j < num ==> r.value.items[j] == g.countries[s.values[j]]
    ensures r.Ok? && r.value.Picked? ==> forall x :: x in r.value.items ==> x in g.countries
  {
    var r := Sampling.Pick(g.countries, num, randoms);
    if r.Ok? && r.value.Picked? then
      assert forall x :: x in r.value.items ==> x in g.countries by {
        var s := Sampling.UniqueRandomArr(num, |g.countries|, randoms).value;
        forall x | x in r.value.items ensures x in g.countries {
          var j :| 0 <= j < |r.value.items| && r.value.items[j] == x;
          assert x == g.countries[s.values[j]];
        }
      }
      r
    else
      r
  }

  /** The draw never asks about one code twice when the countries'
      `ISO_A3` codes are pairwise distinct: the sampled indices are, and
      each drawn country is the one at its index. */
  lemma RandomCountriesDistinctCodes(g: EarlyGeoData, num: int, randoms: seq<real>)
    requires Sampling.IsRandomStream(randoms) && g.numCountries == |g.countries|
    requires forall i, j :: 0 <= i < j < |g.countries| ==> g.countries[i].properties.ISO_A3 != g.countries[j].properties.ISO_A3
    ensures var r := GetRandomCountries(g, num, randoms);
            r.Ok? && r.value.Picked? ==>
              forall i, j :: 0 <= i < j < |r.value.items| ==>
                r.value.items[i].properties.ISO_A3 != r.value.items[j].properties.ISO_A3
  {
  }
}
