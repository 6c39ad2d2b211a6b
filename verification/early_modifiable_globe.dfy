/**
 * The second-generation highlight registry: `{ISO_A3, colour}` entries
 * and no circles.
 */
module EarlyModifiableGlobe {
  import opened Features
  import opened Overlays

  /** `highlightCountry(ISO_A3, colour)`: appends the entry. */
  function HighlightCountry(highlighted: seq<Highlight<string>>, iso: string, colour: string): (r: seq<Highlight<string>>)
    ensures |r| == |highlighted| + 1 && r[..|highlighted|] == highlighted
    ensures r[|highlighted|] == Highlight(iso, colour)
    ensures IsHighlighted(r, iso, colour)
  {
    var r := highlighted + [Highlight(iso, colour)];
    assert r[|highlighted|] == Highlight(iso, colour);
    r
  }

  /** `isHighlightedCountry(d, colour)`, matching on `ISO_A3`. */
  function IsHighlightedCountry(highlighted: seq<Highlight<string>>, d: Feature, colour: string): (r: bool)
    ensures r <==> exists i :: 0 <= i < |highlighted| &&
                              highlighted[i].key == d.properties.ISO_A3 && highlighted[i].colour == colour
  {
    IsHighlighted(highlighted, d.properties.ISO_A3, colour)
  }

  /** `clearHighlightedCountries`. */
  function ClearHighlightedCountries(highlighted: seq<Highlight<string>>): (r: seq<Highlight<string>>)
    ensures forall d, colour :: !IsHighlightedCountry(r, d, colour)
  {
    []
  }

  /** Two features sharing an `ISO_A3` code are highlighted together,
      whatever their `NE_ID`. */
  lemma HighlightByCode(highlighted: seq<Highlight<string>>, d1: Feature, d2: Feature, colour: string, c: string)
    requires d1.properties.ISO_A3 == d2.properties.ISO_A3
    ensures IsHighlightedCountry(HighlightCountry(highlighted, d1.properties.ISO_A3, colour), d2, c) <==>
              IsHighlightedCountry(highlighted, d2, c) || c == colour
  {
    HighlightAdds(highlighted, d1.properties.ISO_A3, colour, d2.properties.ISO_A3, c);
  }
}
