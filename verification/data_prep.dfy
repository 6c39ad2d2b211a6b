/**
 * The offline data scripts with the file system taken out: the list of
 * countries eligible for questions, the dataset with its properties cut
 * down to `NAME` and `NE_ID`, the `NE_ID`-keyed feature map, and the
 * country adjacency table re-keyed from names to `NE_ID`s.
 */
module DataPrep {
  import opened Base
  import opened Seqs
  import opened Features
  import GeoData

  /** The name the eligibility filter singles out as disputed. */
  const NORTHERN_CYPRUS: string := "N. Cyprus"

  /** The eligibility `filter` callback: a country that is its own
      sovereign, or any sovereign country except Northern Cyprus. Every
      other `TYPE`, known or not, is rejected without throwing. */
  predicate IsEligible(f: Feature) {
    match f.properties.TYPE
    case Country => f.properties.SOVEREIGNT == f.properties.ADMIN
    case SovereignCountry => f.properties.NAME != NORTHERN_CYPRUS
    case _ => false
  }

  /** The offline filter agrees with the one the game applies when it
      loads its data, except that it also drops a sovereign country
      named Northern Cyprus. */
  lemma EligibleIsGameEligibleButNorthernCyprus(f: Feature)
    ensures IsEligible(f) <==>
              GeoData.IsEligible(f) &&
              !(f.properties.TYPE == SovereignCountry && f.properties.NAME == NORTHERN_CYPRUS)
  {
  }

  /** The eligible countries, in dataset order. */
  function EligibleCountries(fs: seq<Feature>): (r: seq<Feature>)
    ensures forall f :: f in r <==> f in fs && IsEligible(f)
    ensures |r| <= |fs|
  {
    Filter(fs, IsEligible)
  }

  /** The two lists written next to each other: names and ids of the
      eligible countries. */
  datatype EligibleLists = EligibleLists(names: seq<string>, ids: seq<int>)

  /** `eligibleCountriesNames` and `eligibleCountriesIds`: parallel lists,
      entry `i` of each describing the `i`-th eligible country. */
  function ListEligible(fs: seq<Feature>): (r: EligibleLists)
    ensures var eligible := EligibleCountries(fs);
            |r.names| == |r.ids| == |eligible| &&
            forall i :: 0 <= i < |eligible| ==>
              r.names[i] == eligible[i].properties.NAME && r.ids[i] == eligible[i].properties.NE_ID
  {
    var eligible := EligibleCountries(fs);
    EligibleLists(Map(eligible, (f: Feature) => f.properties.NAME), Map(eligible, (f: Feature) => f.properties.NE_ID))
  }

  /** Every listed name and id belongs to one eligible feature of the
      dataset. */
  lemma ListedAreEligible(fs: seq<Feature>, i: nat)
    requires i < |ListEligible(fs).names|
    ensures exists f :: f in fs && IsEligible(f) &&
                        ListEligible(fs).names[i] == f.properties.NAME && ListEligible(fs).ids[i] == f.properties.NE_ID
  {
    var eligible := EligibleCountries(fs);
    assert eligible[i] in eligible;
  }

  /** Eligibility of a concatenated dataset lists the first part's
      countries before the second's. */
  lemma ListEligibleConcat(a: seq<Feature>, b: seq<Feature>)
    ensures ListEligible(a + b).names == ListEligible(a).names + ListEligible(b).names
    ensures ListEligible(a + b).ids == ListEligible(a).ids + ListEligible(b).ids
  {
    FilterConcat(a, b, IsEligible);
    var ea := EligibleCountries(a);
    var eb := EligibleCountries(b);
    var l := ListEligible(a + b);
    var la := ListEligible(a);
    var lb := ListEligible(b);
    assert EligibleCountries(a + b) == ea + eb;
    forall i | 0 <= i < |l.names| ensures l.names[i] == (la.names + lb.names)[i] && l.ids[i] == (la.ids + lb.ids)[i] {
      if i >= |ea| {
        assert (ea + eb)[i] == eb[i - |ea|];
      }
    }
  }

  /** What `filterProperties` leaves of a feature's properties. */
  datatype SlimProperties = SlimProperties(NAME: string, NE_ID: int)

  datatype SlimFeature = SlimFeature(properties: SlimProperties, geometry: Geometry)

  /** `filterProperties`: a fresh object holding only `NAME` and `NE_ID`. */
  function FilterProperties(p: Properties): (r: SlimProperties)
    ensures r.NAME == p.NAME && r.NE_ID == p.NE_ID
  {
    SlimProperties(p.NAME, p.NE_ID)
  }

  /** The `forEach` that replaces every feature's properties, keeping the
      features, their order and their geometry. */
  function Strip(fs: seq<Feature>): (r: seq<SlimFeature>)
    ensures |r| == |fs|
    ensures forall i :: 0 <= i < |fs| ==>
              r[i].geometry == fs[i].geometry && r[i].properties == FilterProperties(fs[i].properties)
  {
    Map(fs, (f: Feature) => SlimFeature(FilterProperties(f.properties), f.geometry))
  }

  /** Stripping forgets everything eligibility looks at but the name:
      two features differing only in `TYPE`, sovereignty or codes strip
      to the same feature, so the filter has to run first. */
  lemma StripForgetsEligibility(f: Feature, g: Feature)
    requires f.geometry == g.geometry
    requires f.properties.NAME == g.properties.NAME && f.properties.NE_ID == g.properties.NE_ID
    ensures Strip([f]) == Strip([g])
  {
  }

  /** `NEIDToGeoJSONMap`: every stripped feature under its `NE_ID`, a later
      feature overwriting an earlier one with the same id. */
  function FeatureById(fs: seq<SlimFeature>): (r: map<int, SlimFeature>)
    ensures forall i :: 0 <= i < |fs| ==> fs[i].properties.NE_ID in r
  {
    LastWins(fs, (f: SlimFeature) => f.properties.NE_ID, (f: SlimFeature) => f)
  }

  /** The map holds exactly the dataset's ids, and each id the last
      feature carrying it. */
  lemma FeatureByIdContents(fs: seq<SlimFeature>, id: int)
    ensures id in FeatureById(fs) <==> exists i :: 0 <= i < |fs| && fs[i].properties.NE_ID == id
    ensures id in FeatureById(fs) ==>
              exists i :: 0 <= i < |fs| && fs[i].properties.NE_ID == id && FeatureById(fs)[id] == fs[i] &&
                          forall j :: i < j < |fs| ==> fs[j].properties.NE_ID != id
  {
    var key := (f: SlimFeature) => f.properties.NE_ID;
    var value := (f: SlimFeature) => f;
    if id in FeatureById(fs) {
      LastWinsKeys(fs, key, value, id);
      var i := LastIndex(fs, key, id);
      LastWinsValue(fs, key, value, i);
    }
  }

  /** The last position whose key is `k`, given there is one. */
  function LastIndex<T, K(==)>(s: seq<T>, key: T -> K, k: K): (i: nat)
    requires exists i :: 0 <= i < |s| && key(s[i]) == k
    ensures i < |s| && key(s[i]) == k
    ensures forall j :: i < j < |s| ==> key(s[j]) != k
    decreases |s|
  {
    if key(s[|s| - 1]) == k then |s| - 1
    else
      var init := s[..|s| - 1];
      assert exists i :: 0 <= i < |init| && key(init[i]) == k by {
        var i :| 0 <= i < |s| && key(s[i]) == k;
        assert init[i] == s[i];
      }
      var i := LastIndex(init, key, k);
      assert s[i] == init[i];
      i
  }

  /** `countriesMap`: each country's name to its `NE_ID`, a later country
      with the same name overwriting an earlier one. */
  function CountriesMap(fs: seq<Feature>): (r: map<string, int>)
    ensures forall i :: 0 <= i < |fs| ==> fs[i].properties.NAME in r
    ensures |fs| > 0 ==> r[fs[|fs| - 1].properties.NAME] == fs[|fs| - 1].properties.NE_ID
  {
    LastWins(fs, (f: Feature) => f.properties.NAME, (f: Feature) => f.properties.NE_ID)
  }

  /** `getId(name)`: the id under that name, `undefined` for a name no
      country has. */
  function GetId(m: map<string, int>, name: string): (r: Option<int>)
    ensures r.Some? <==> name in m
    ensures r.Some? ==> r.value == m[name]
  {
    if name in m then Some(m[name]) else None
  }

  /** A name shared by two countries resolves to the later one's id. */
  lemma DuplicateNameLastWins(fs: seq<Feature>, i: nat)
    requires i < |fs|
    requires forall j :: i < j < |fs| ==> fs[j].properties.NAME != fs[i].properties.NAME
    ensures GetId(CountriesMap(fs), fs[i].properties.NAME) == Some(fs[i].properties.NE_ID)
  {
    LastWinsValue(fs, (f: Feature) => f.properties.NAME, (f: Feature) => f.properties.NE_ID, i);
  }

  /** One entry of the name-keyed adjacency file. */
  datatype NameEntry = NameEntry(name: string, adjacent: seq<string>)

  /** The converted entry: the id of the name (`undefined` as the key
      when the name is unknown) and the ids of the neighbours, in order,
      unknown neighbours kept as `undefined`. */
  function ConvertEntry(m: map<string, int>, e: NameEntry): (r: (Option<int>, seq<Option<int>>))
    ensures r.0 == GetId(m, e.name)
    ensures |r.1| == |e.adjacent|
    ensures forall k :: 0 <= k < |e.adjacent| ==> r.1[k] == GetId(m, e.adjacent[k])
  {
    (GetId(m, e.name), Map(e.adjacent, (n: string) => GetId(m, n)))
  }

  /** `idAdjacencyMap`: the entries, in `Object.entries` order, each
      stored under its converted key; entries whose names share an id
      collide and the last one stays. */
  function ToIdAdjacency(m: map<string, int>, entries: seq<NameEntry>): (r: map<Option<int>, seq<Option<int>>>)
    ensures forall i :: 0 <= i < |entries| ==> GetId(m, entries[i].name) in r
  {
    LastWins(entries, (e: NameEntry) => ConvertEntry(m, e).0, (e: NameEntry) => ConvertEntry(m, e).1)
  }

  /** Every entry whose id no later entry shares keeps its list, with the
      same length and order and each name replaced by its id; the table
      has no key but the converted names. */
  lemma ToIdAdjacencyContents(m: map<string, int>, entries: seq<NameEntry>, i: nat)
    requires i < |entries|
    requires forall j :: i < j < |entries| ==> GetId(m, entries[j].name) != GetId(m, entries[i].name)
    ensures var list := ToIdAdjacency(m, entries)[GetId(m, entries[i].name)];
            |list| == |entries[i].adjacent| &&
            forall k :: 0 <= k < |list| ==> list[k] == GetId(m, entries[i].adjacent[k])
  {
    LastWinsValue(entries, (e: NameEntry) => ConvertEntry(m, e).0, (e: NameEntry) => ConvertEntry(m, e).1, i);
  }

  lemma ToIdAdjacencyKeys(m: map<string, int>, entries: seq<NameEntry>, key: Option<int>)
    requires key in ToIdAdjacency(m, entries)
    ensures exists i :: 0 <= i < |entries| && GetId(m, entries[i].name) == key
  {
    LastWinsKeys(entries, (e: NameEntry) => ConvertEntry(m, e).0, (e: NameEntry) => ConvertEntry(m, e).1, key);
  }

  /** Two different names with the same id: the later entry's list wins. */
  lemma SharedIdCollides(m: map<string, int>, a: NameEntry, b: NameEntry)
    requires a.name in m && b.name in m && a.name != b.name && m[a.name] == m[b.name]
    ensures ToIdAdjacency(m, [a, b]) == map[Some(m[a.name]) := ConvertEntry(m, b).1]
  {
    var key := (e: NameEntry) => ConvertEntry(m, e).0;
    var value := (e: NameEntry) => ConvertEntry(m, e).1;
    var k := Some(m[a.name]);
    assert [a, b][..1] == [a];
    assert [a][..0] == [];
    assert LastWins([a], key, value) == map[k := value(a)];
    assert LastWins([a, b], key, value) == map[k := value(a)][k := value(b)];
  }

  /** Unknown neighbour names are not filtered out. */
  lemma UnknownNeighbourKept(m: map<string, int>, name: string, unknown: string)
    requires unknown !in m
    ensures var key := GetId(m, name);
            ToIdAdjacency(m, [NameEntry(name, [unknown])]) == map[key := [None]]
  {
    var e := NameEntry(name, [unknown]);
    var key := (e: NameEntry) => ConvertEntry(m, e).0;
    var value := (e: NameEntry) => ConvertEntry(m, e).1;
    assert [e][..0] == [];
    assert value(e) == [None];
    assert LastWins([e], key, value) == map[][key(e) := value(e)];
  }
}
