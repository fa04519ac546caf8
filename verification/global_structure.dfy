/** Composition checks: does the structure contain an atom of a given kind at all. */
module GlobalStructure {
  import opened Crystal
  import opened Indices

  /** The kinds the presence checks look for. */
  predicate PresenceCategory(c: Category) {
    c in {Carbon, Hydrogen, Nitrogen, Metal}
  }

  /** `HasCarbon`, `HasHydrogen`, `HasNitrogen` and `HasMetal`: the verdict holds iff the
      index list of the kind is non-empty, that is iff some site is of that kind. */
  function HasCategory(t: PeriodicTable, c: Category, species: seq<Element>): (r: bool)
    requires PresenceCategory(c)
    ensures r <==> exists i :: 0 <= i < |species| && InCategory(t, c, species[i])
    ensures r <==> |IndicesOf(t, c, species)| > 0
  {
    var ix := IndicesOf(t, c, species);
    if |ix| > 0 then
      assert ix[0] in ix;
      true
    else
      assert forall i :: 0 <= i < |species| && InCategory(t, c, species[i]) ==> i in ix;
      false
  }
}
