/** The ordered mapping the legacy `get_mof_descriptors` returns. */
module LegacyMapping {
  import Checker

  /** One field per entry of the mapping, in the order of its keys. */
  datatype LegacyDescriptors = LegacyDescriptors(
    name: Checker.Value, graphHash: Checker.Value, formula: Checker.Value, path: Checker.Value,
    density: Checker.Value, hasOms: Checker.Value, hasCarbon: Checker.Value, hasHydrogen: Checker.Value,
    hasAtomicOverlaps: Checker.Value, overcoordinatedC: Checker.Value, overcoordinatedN: Checker.Value,
    overcoordinatedH: Checker.Value, undercoordinatedC: Checker.Value, undercoordinatedN: Checker.Value,
    hasMetal: Checker.Value, hasLoneAtom: Checker.Value, hasLoneMolecule: Checker.Value,
    hasHighCharges: Checker.Value, undercoordinatedMetal: Checker.Value, isPorous: Checker.Value)

  /** The entries the facade reads from elsewhere: the file name, the graph hash, the
      formula, the path, the density, the overlap verdict of the utility module and the
      lone-molecule verdict of the subgraph extraction. */
  datatype Given = Given(
    name: Checker.Value, graphHash: Checker.Value, formula: Checker.Value, path: Checker.Value,
    density: Checker.Value, hasAtomicOverlaps: Checker.Value, hasLoneMolecule: Checker.Value)

  /** The values in key order. */
  function Values(d: LegacyDescriptors): (r: seq<Checker.Value>)
    ensures |r| == 20
    ensures r[0] == d.name && r[5] == d.hasOms && r[19] == d.isPorous
  {
    [d.name, d.graphHash, d.formula, d.path, d.density, d.hasOms, d.hasCarbon, d.hasHydrogen,
     d.hasAtomicOverlaps, d.overcoordinatedC, d.overcoordinatedN, d.overcoordinatedH,
     d.undercoordinatedC, d.undercoordinatedN, d.hasMetal, d.hasLoneAtom, d.hasLoneMolecule,
     d.hasHighCharges, d.undercoordinatedMetal, d.isPorous]
  }

  /** The `OrderedDict`: the `k`-th key with the `k`-th value. */
  function Mapping(keys: seq<string>, d: LegacyDescriptors): (r: seq<(string, Checker.Value)>)
    requires |keys| == 20
    ensures Checker.Keys(r) == keys
    ensures forall k :: 0 <= k < 20 ==> r[k].1 == Values(d)[k]
  {
    var values := Values(d);
    seq(20, k requires 0 <= k < 20 => (keys[k], values[k]))
  }
}
