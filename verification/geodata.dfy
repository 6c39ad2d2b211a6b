/**
 * Country identity, adjacency and the question pool of the game
 * (the `GeoData` class of the second generation). The Natural Earth
 * datasets and the adjacency table it loads at start-up are parameters.
 */
module GeoData {
  import opened Base
  import opened Seqs
  import opened Features
  import Sampling

  /** The five `TYPE`s of `COUNTRY_TYPE`. */
  predicate IsKnownType(t: FeatureType) {
    !t.OtherType?
  }

  /** `getCountryId`: the code two features are compared under. A
      dependency is identified with its sovereign state. */
  function CountryId(c: Feature): (r: Result<string>)
    ensures r.Ok? <==> IsKnownType(c.properties.TYPE)
    ensures c.properties.TYPE.Dependency? ==> r == Ok(c.properties.SOV_A3)
    ensures IsKnownType(c.properties.TYPE) && !c.properties.TYPE.Dependency? ==> r == Ok(c.properties.ADM0_A3)
  {
    match c.properties.TYPE
    case Country => Ok(c.properties.ADM0_A3)
    case SovereignCountry => Ok(c.properties.ADM0_A3)
    case Disputed => Ok(c.properties.ADM0_A3)
    case Indeterminate => Ok(c.properties.ADM0_A3)
    case Dependency => Ok(c.properties.SOV_A3)
    case OtherType(_) => Throw("Unknown feature type")
  }

  /** `isSameCountry`: strict equality of the two identities. */
  function IsSameCountry(c1: Feature, c2: Feature): (r: Result<bool>)
    ensures r.Ok? <==> IsKnownType(c1.properties.TYPE) && IsKnownType(c2.properties.TYPE)
    ensures r.Ok? ==> (r.value <==> CountryId(c1).value == CountryId(c2).value)
  {
    var id1 :- CountryId(c1);
    var id2 :- CountryId(c2);
    Ok(id1 == id2)
  }

  /** A dependency is the same country as the state it belongs to, and
      as every other dependency of that state. */
  lemma DependencyMatchesSovereign(d: Feature, s: Feature)
    requires d.properties.TYPE == Dependency
    requires s.properties.TYPE in {Country, SovereignCountry, Disputed, Indeterminate}
    requires s.properties.ADM0_A3 == d.properties.SOV_A3
    ensures IsSameCountry(d, s) == Ok(true) && IsSameCountry(s, d) == Ok(true)
  {
  }

  /** On features of known type, `isSameCountry` is an equivalence. */
  lemma SameCountryIsEquivalence(a: Feature, b: Feature, c: Feature)
    requires IsKnownType(a.properties.TYPE) && IsKnownType(b.properties.TYPE) && IsKnownType(c.properties.TYPE)
    ensures IsSameCountry(a, a) == Ok(true)
    ensures IsSameCountry(a, b) == IsSameCountry(b, a)
    ensures IsSameCountry(a, b) == Ok(true) && IsSameCountry(b, c) == Ok(true) ==> IsSameCountry(a, c) == Ok(true)
  {
  }

  /** What `isAdjacentCountry` returns: `false` when the first country
      has no adjacency list, `undefined` when the second is not on it,
      and otherwise the id `find` located. */
  datatype Adjacency = NoList | NotListed | Listed(id: int)

  /** `isAdjacentCountry(c1, c2)`: is `c2`'s id on `c1`'s adjacency list?
      A missing list means "no neighbours", not an error. */
  function IsAdjacentCountry(adjacency: map<int, seq<int>>, c1: Feature, c2: Feature): (r: Adjacency)
    ensures r.NoList? <==> c1.properties.NE_ID !in adjacency
    ensures r.Listed? <==> c1.properties.NE_ID in adjacency && c2.properties.NE_ID in adjacency[c1.properties.NE_ID]
    ensures r.Listed? ==> r.id == c2.properties.NE_ID
  {
    var id := c1.properties.NE_ID;
    if id !in adjacency then NoList
    else
      match Find(adjacency[id], (x: int) => x == c2.properties.NE_ID)
      case None => NotListed
      case Some(x) => Listed(x)
  }

  /** JavaScript truthiness of `isAdjacentCountry`'s result: `false`,
      `undefined` and a found id of `0` are all falsy. */
  predicate Truthy(a: Adjacency) {
    a.Listed? && a.id != 0
  }

  /** The adjacency bonus test holds exactly when the first country has a
      list naming the second (Natural Earth ids are never 0). */
  lemma AdjacencyTruthyIffListed(adjacency: map<int, seq<int>>, c1: Feature, c2: Feature)
    requires c2.properties.NE_ID != 0
    ensures Truthy(IsAdjacentCountry(adjacency, c1, c2)) <==>
              c1.properties.NE_ID in adjacency && c2.properties.NE_ID in adjacency[c1.properties.NE_ID]
  {
  }

  predicate IsSovereign(f: Feature) { f.properties.TYPE == SovereignCountry }
  predicate IsCountry(f: Feature) { f.properties.TYPE == Country }
  predicate IsDependency(f: Feature) { f.properties.TYPE == Dependency }
  predicate IsDisputed(f: Feature) { f.properties.TYPE == Disputed }
  predicate IsIndeterminate(f: Feature) { f.properties.TYPE == Indeterminate }

  /** The five lists the 50m features are sorted into at load time. */
  datatype Partition = Partition(
    sovereignCountries: seq<Feature>,
    countries: seq<Feature>,
    dependencies: seq<Feature>,
    disputedCountries: seq<Feature>,
    indeterminateCountries: seq<Feature>)

  /** The load-time `forEach` that pushes each feature onto the list of
      its `TYPE`, throwing on a `TYPE` it does not know. */
  function PartitionByType(fs: seq<Feature>): (r: Result<Partition>)
    ensures r.Ok? <==> forall i :: 0 <= i < |fs| ==> IsKnownType(fs[i].properties.TYPE)
    decreases |fs|
  {
    if |fs| == 0 then Ok(Partition([], [], [], [], []))
    else
      var init := fs[..|fs| - 1];
      var f := fs[|fs| - 1];
      assert forall i :: 0 <= i < |init| ==> init[i] == fs[i];
      var p :- PartitionByType(init);
      match f.properties.TYPE
      case Country => Ok(p.(countries := p.countries + [f]))
      case SovereignCountry => Ok(p.(sovereignCountries := p.sovereignCountries + [f]))
      case Dependency => Ok(p.(dependencies := p.dependencies + [f]))
      case Disputed => Ok(p.(disputedCountries := p.disputedCountries + [f]))
      case Indeterminate => Ok(p.(indeterminateCountries := p.indeterminateCountries + [f]))
      case OtherType(_) => Throw("Unknown feature type")
  }

  /** Each list holds exactly the features of its `TYPE`, in dataset
      order. */
  lemma {:induction false} PartitionIsFilters(fs: seq<Feature>)
    requires PartitionByType(fs).Ok?
    ensures var p := PartitionByType(fs).value;
            p.sovereignCountries == Filter(fs, IsSovereign) && p.countries == Filter(fs, IsCountry) &&
            p.dependencies == Filter(fs, IsDependency) && p.disputedCountries == Filter(fs, IsDisputed) &&
            p.indeterminateCountries == Filter(fs, IsIndeterminate)
    decreases |fs|
  {
    if |fs| > 0 {
      PartitionIsFilters(fs[..|fs| - 1]);
    }
  }

  /** The callback of the eligibility `filter`: a country is kept when it
      is its own sovereign, a sovereign country always; its `default`
      branch throws. */
  function KeepForQuestions(f: Feature): (r: Result<bool>)
    ensures r.Ok? <==> f.properties.TYPE in {Country, SovereignCountry}
    ensures r.Ok? ==> (r.value <==> IsEligible(f))
  {
    match f.properties.TYPE
    case Country => Ok(f.properties.SOVEREIGNT == f.properties.ADMIN)
    case SovereignCountry => Ok(true)
    case _ => Throw("Unknown feature type")
  }

  /** A country that is its own sovereign. */
  predicate IsEligibleCountry(f: Feature) {
    f.properties.TYPE == Country && f.properties.SOVEREIGNT == f.properties.ADMIN
  }

  /** A feature that may be asked about. */
  predicate IsEligible(f: Feature) {
    IsSovereign(f) || IsEligibleCountry(f)
  }

  /** `Array.prototype.filter` with a callback that may throw. */
  function FilterKept(s: seq<Feature>): (r: Result<seq<Feature>>)
    ensures (forall i :: 0 <= i < |s| ==> s[i].properties.TYPE in {Country, SovereignCountry})
              ==> r == Ok(Filter(s, IsEligible))
    decreases |s|
  {
    if |s| == 0 then Ok([])
    else
      var init := s[..|s| - 1];
      assert forall i :: 0 <= i < |init| ==> init[i] == s[i];
      var kept :- FilterKept(init);
      var keep :- KeepForQuestions(s[|s| - 1]);
      Ok(if keep then kept + [s[|s| - 1]] else kept)
  }

  lemma {:induction false} FilterCountriesEligible(fs: seq<Feature>)
    ensures Filter(Filter(fs, IsCountry), IsEligible) == Filter(fs, IsEligibleCountry)
    decreases |fs|
  {
    if |fs| > 0 {
      var init := fs[..|fs| - 1];
      FilterCountriesEligible(init);
      var f := fs[|fs| - 1];
      if IsCountry(f) {
        FilterConcat(Filter(init, IsCountry), [f], IsEligible);
        assert Filter([f], IsEligible) == (if IsEligible(f) then [f] else []) by {
          assert [f][..0] == [];
        }
      }
    }
  }

  lemma TypesOfFiltered(fs: seq<Feature>)
    ensures forall i :: 0 <= i < |Filter(fs, IsSovereign)| ==> Filter(fs, IsSovereign)[i].properties.TYPE == SovereignCountry
    ensures forall i :: 0 <= i < |Filter(fs, IsCountry)| ==> Filter(fs, IsCountry)[i].properties.TYPE == Country
  {
    var s := Filter(fs, IsSovereign);
    var c := Filter(fs, IsCountry);
    assert forall i :: 0 <= i < |s| ==> s[i] in s;
    assert forall i :: 0 <= i < |c| ==> c[i] in c;
  }

  /** Keeping the eligible entries of the sovereign countries followed by
      the countries leaves the sovereign countries followed by the
      countries that are their own sovereign. */
  lemma EligibleJoined(fs: seq<Feature>)
    ensures FilterKept(Filter(fs, IsSovereign) + Filter(fs, IsCountry)) ==
            Ok(Filter(fs, IsSovereign) + Filter(fs, IsEligibleCountry))
  {
    var sovereign := Filter(fs, IsSovereign);
    var joined := sovereign + Filter(fs, IsCountry);
    TypesOfFiltered(fs);
    FilterAll(sovereign, IsEligible);
    FilterConcat(sovereign, Filter(fs, IsCountry), IsEligible);
    FilterCountriesEligible(fs);
    assert forall i :: 0 <= i < |joined| ==> joined[i].properties.TYPE in {Country, SovereignCountry};
  }

  /** `ELIGIBILE_QUESTION_COUNTRIES`: the sovereign countries followed by
      the countries that are their own sovereign, each in dataset order.
      Loading throws if any feature has an unknown `TYPE`. */
  function EligiblePool(fs: seq<Feature>): (r: Result<seq<Feature>>)
    ensures r.Ok? <==> forall i :: 0 <= i < |fs| ==> IsKnownType(fs[i].properties.TYPE)
    ensures r.Ok? ==> r.value == Filter(fs, IsSovereign) + Filter(fs, IsEligibleCountry)
    ensures r.Ok? ==> forall f :: f in r.value <==> f in fs && IsEligible(f)
  {
    var p :- PartitionByType(fs);
    PartitionIsFilters(fs);
    EligibleJoined(fs);
    FilterKept(p.sovereignCountries + p.countries)
  }

  /** `getRandomCountries(num)`: `num` distinct pool entries, in the order
      their indices were drawn. */
  function GetRandomCountries(pool: seq<Feature>, num: int, randoms: seq<real>): (r: Result<Sampling.Picked<Feature>>)
    requires Sampling.IsRandomStream(randoms)
    ensures r.Throw? <==> num <= 0 || |pool| == 0
    ensures r.Ok? && r.value.Picked? ==> |r.value.items| == num
    ensures r.Ok? && r.value.Picked? ==> forall j :: 0 <= j < |r.value.items| ==> r.value.items[j] in pool
    ensures r.Ok? && r.value.Picked? ==>
              var s := Sampling.UniqueRandomArr(num, |pool|, randoms).value;
              s.Sampled? && forall j :: 0 <= j < num ==> r.value.items[j] == pool[s.values[j]]
    ensures (r.Ok? && r.value.Picked? &&
             forall i, j :: 0 <= i < j < |pool| ==> pool[i].properties.NE_ID != pool[j].properties.NE_ID) ==>
              forall i, j :: 0 <= i < j < num ==> r.value.items[i].properties.NE_ID != r.value.items[j].properties.NE_ID
  {
    var r := Sampling.Pick(pool, num, randoms);
    if r.Ok? && r.value.Picked? && (forall i, j :: 0 <= i < j < |pool| ==> pool[i].properties.NE_ID != pool[j].properties.NE_ID) then
      Sampling.PickDistinctIdentities(pool, num, randoms, (f: Feature) => f.properties.NE_ID);
      r
    else
      r
  }

  /** `findCountry(NE_ID)`: the first pool entry with that id. */
  function FindCountry(pool: seq<Feature>, neId: int): (r: Option<Feature>)
    ensures r.Some? ==> r.value in pool && r.value.properties.NE_ID == neId
    ensures r.Some? ==> exists i :: 0 <= i < |pool| && pool[i] == r.value &&
                                    forall j :: 0 <= j < i ==> pool[j].properties.NE_ID != neId
    ensures r.None? <==> forall i :: 0 <= i < |pool| ==> pool[i].properties.NE_ID != neId
  {
    Find(pool, (f: Feature) => f.properties.NE_ID == neId)
  }
}
