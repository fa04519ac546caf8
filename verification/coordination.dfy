/** The index-flagging checks on the structure graph: over-coordinated C, N and H,
    under-coordinated rare-earth and alkali/alkaline-earth metals, unexpected terminal oxo
    groups and geometrically exposed metals. Each check walks its candidate index list in
    order and appends the candidates that fail. */
module Coordination {
  import opened Wrappers
  import opened Seqs
  import opened Crystal
  import opened Indices
  import opened CheckBase

  /** A C or N with more than four connected sites none of which is a metal. */
  predicate Overcoordinated(t: PeriodicTable, s: Structure, i: nat) {
    Cn(s, i) > 4 && !AnyNeighborMetal(t, s, ConnectedSites(s, i))
  }

  /** `OverCoordinatedCarbonCheck`: carbons with CN above 4 and no metal neighbour. */
  function OverCoordinatedCarbon(t: PeriodicTable, s: Structure): (r: IndexOutcome)
    ensures r.ok <==> |r.indices| == 0
    ensures forall i: nat :: i in r.indices <==>
              i < Size(s) && s.species[i] == "C" && Cn(s, i) > 4
              && !(exists k :: 0 <= k < Cn(s, i) && IsMetal(t, SpeciesAt(s, ConnectedSites(s, i)[k].index)))
    ensures StrictlyIncreasing(r.indices)
  {
    Outcome(Keep(IndicesOf(t, Carbon, s.species), (i: nat) => Overcoordinated(t, s, i)))
  }

  /** `OverCoordinatedNitrogenCheck`: nitrogens with CN above 4 and no metal neighbour. */
  function OverCoordinatedNitrogen(t: PeriodicTable, s: Structure): (r: IndexOutcome)
    ensures r.ok <==> |r.indices| == 0
    ensures forall i: nat :: i in r.indices <==>
              i < Size(s) && s.species[i] == "N" && Cn(s, i) > 4
              && !(exists k :: 0 <= k < Cn(s, i) && IsMetal(t, SpeciesAt(s, ConnectedSites(s, i)[k].index)))
    ensures StrictlyIncreasing(r.indices)
  {
    Outcome(Keep(IndicesOf(t, Nitrogen, s.species), (i: nat) => Overcoordinated(t, s, i)))
  }

  /** `OverCoordinatedHydrogenCheck`: hydrogens with more than one site inside the van der
      Waals radius of H. The count comes from a radius search, not from the graph, and
      metal neighbours count like any other. */
  function OverCoordinatedHydrogen(t: PeriodicTable, s: Structure, m: Measurements): (r: IndexOutcome)
    ensures r.ok <==> |r.indices| == 0
    ensures forall i: nat :: i in r.indices <==> i < Size(s) && s.species[i] == "H" && m.hydrogenShell(i) > 1
    ensures StrictlyIncreasing(r.indices)
  {
    Outcome(Keep(IndicesOf(t, Hydrogen, s.species), (i: nat) => m.hydrogenShell(i) > 1))
  }

  /** `UnderCoordinatedRareEarthCheck`: rare-earth sites with fewer than four connected sites. */
  function UnderCoordinatedRareEarth(t: PeriodicTable, s: Structure): (r: IndexOutcome)
    ensures r.ok <==> |r.indices| == 0
    ensures forall i: nat :: i in r.indices <==> i < Size(s) && s.species[i] in t.rareEarth && Cn(s, i) < 4
    ensures StrictlyIncreasing(r.indices)
  {
    Outcome(Keep(IndicesOf(t, RareEarth, s.species), (i: nat) => Cn(s, i) < 4))
  }

  /** `UnderCoordinatedAlkaliAlkaline`: alkali and alkaline-earth sites with fewer than four
      connected sites, in the order of the candidate list. */
  function UnderCoordinatedAlkaliAlkaline(t: PeriodicTable, s: Structure): (r: IndexOutcome)
    ensures r.ok <==> |r.indices| == 0
    ensures forall i: nat :: i in r.indices <==>
              i < Size(s) && (s.species[i] in t.alkali || s.species[i] in t.alkaline) && Cn(s, i) < 4
    ensures StrictlyIncreasing(r.indices)
  {
    Outcome(Keep(IndicesOf(t, AlkaliAlkaline, s.species), (i: nat) => Cn(s, i) < 4))
  }

  // ---------------------------------------------------------------------------------
  // Unexpected terminal oxo groups

  /** Metals that should not carry a terminal oxo group. */
  const NoTerminalOxo: seq<Element> := [
    "Li", "Na", "K", "Rb", "Cs", "Fr", "Be", "Mg", "Ca", "Sr", "Ba", "Ra", "Sc", "Y", "La",
    "Ac", "Ti", "Zr", "Hf", "Mn", "Fe", "Co", "Ni", "Cu", "Ag", "Zn", "Cd", "Al", "Ga", "In", "Tl"]

  /** A neighbour entry is a terminal oxygen: an O site with exactly one connected site. */
  predicate TerminalOxo(s: Structure, nb: ConnectedSite) {
    SpeciesAt(s, nb.index) == "O" && Cn(s, nb.index) == 1
  }

  /** The index a terminal oxygen reports: that of its only connected site. */
  function SoleNeighbor(s: Structure, nb: ConnectedSite): nat
    requires TerminalOxo(s, nb)
  {
    ConnectedSites(s, nb.index)[0].index
  }

  /** The entries one inspected metal contributes, one per terminal-oxygen neighbour. */
  function OxoEntries(s: Structure, nbs: seq<ConnectedSite>): (r: seq<nat>)
    ensures |r| == Count(nbs, nb => TerminalOxo(s, nb))
  {
    if |nbs| == 0 then []
    else
      var rest := OxoEntries(s, nbs[1..]);
      if TerminalOxo(s, nbs[0]) then [SoleNeighbor(s, nbs[0])] + rest else rest
  }

  /** Every terminal-oxygen neighbour contributes its oxygen's sole connected site. */
  lemma {:induction false} OxoEntriesComplete(s: Structure, nbs: seq<ConnectedSite>, k: nat)
    requires k < |nbs| && TerminalOxo(s, nbs[k])
    ensures SoleNeighbor(s, nbs[k]) in OxoEntries(s, nbs)
    decreases k
  {
    if k > 0 {
      assert nbs[k] == nbs[1..][k - 1];
      OxoEntriesComplete(s, nbs[1..], k - 1);
    }
  }

  /** Every entry comes from some terminal-oxygen neighbour. */
  lemma {:induction false} OxoEntriesSound(s: Structure, nbs: seq<ConnectedSite>, x: nat)
    requires x in OxoEntries(s, nbs)
    ensures exists k :: 0 <= k < |nbs| && TerminalOxo(s, nbs[k]) && x == SoleNeighbor(s, nbs[k])
    decreases |nbs|
  {
    if !(TerminalOxo(s, nbs[0]) && x == SoleNeighbor(s, nbs[0])) {
      OxoEntriesSound(s, nbs[1..], x);
      var k :| 0 <= k < |nbs[1..]| && TerminalOxo(s, nbs[1..][k]) && x == SoleNeighbor(s, nbs[1..][k]);
      assert nbs[1..][k] == nbs[k + 1];
    }
  }

  /** A metal whose symbol is in the no-terminal-oxo list. */
  predicate Inspected(t: PeriodicTable, s: Structure, i: nat) {
    i < Size(s) && IsMetal(t, s.species[i]) && s.species[i] in NoTerminalOxo
  }

  /** Entries of all inspected metals of a candidate list, in list order. */
  function OxoOverMetals(t: PeriodicTable, s: Structure, metals: seq<nat>): seq<nat>
    decreases |metals|
  {
    if |metals| == 0 then []
    else
      (if Inspected(t, s, metals[0]) then OxoEntries(s, ConnectedSites(s, metals[0])) else [])
      + OxoOverMetals(t, s, metals[1..])
  }

  /** An inspected metal of the list contributes all its entries. */
  lemma {:induction false} OxoOverMetalsComplete(t: PeriodicTable, s: Structure, metals: seq<nat>, j: nat, k: nat)
    requires j < |metals| && Inspected(t, s, metals[j])
    requires k < Cn(s, metals[j]) && TerminalOxo(s, ConnectedSites(s, metals[j])[k])
    ensures SoleNeighbor(s, ConnectedSites(s, metals[j])[k]) in OxoOverMetals(t, s, metals)
    decreases j
  {
    if j == 0 {
      OxoEntriesComplete(s, ConnectedSites(s, metals[0]), k);
    } else {
      assert metals[j] == metals[1..][j - 1];
      OxoOverMetalsComplete(t, s, metals[1..], j - 1, k);
    }
  }

  /** Every entry comes from a terminal-oxygen neighbour of an inspected metal of the list. */
  lemma {:induction false} OxoOverMetalsSound(t: PeriodicTable, s: Structure, metals: seq<nat>, x: nat)
    requires x in OxoOverMetals(t, s, metals)
    ensures exists j: nat, k :: j in metals && Inspected(t, s, j) && 0 <= k < Cn(s, j)
              && TerminalOxo(s, ConnectedSites(s, j)[k]) && x == SoleNeighbor(s, ConnectedSites(s, j)[k])
    decreases |metals|
  {
    var here := if Inspected(t, s, metals[0]) then OxoEntries(s, ConnectedSites(s, metals[0])) else [];
    if x in here {
      OxoEntriesSound(s, ConnectedSites(s, metals[0]), x);
    } else {
      OxoOverMetalsSound(t, s, metals[1..], x);
      var j: nat, k :| j in metals[1..] && Inspected(t, s, j) && 0 <= k < Cn(s, j)
              && TerminalOxo(s, ConnectedSites(s, j)[k]) && x == SoleNeighbor(s, ConnectedSites(s, j)[k]);
      assert j in metals;
    }
  }

  /** `FalseOxoCheck`: for every inspected metal and every terminal-oxygen neighbour of
      it, the index of that oxygen's only connected site is reported; nothing is
      deduplicated. */
  function FalseOxo(t: PeriodicTable, s: Structure): (r: IndexOutcome)
    ensures r.ok <==> |r.indices| == 0
  {
    Outcome(OxoOverMetals(t, s, IndicesOf(t, Metal, s.species)))
  }

  /** The false-oxo report lists exactly the sole connected sites of terminal oxygens bound
      to inspected metals. */
  lemma FalseOxoReports(t: PeriodicTable, s: Structure, x: nat)
    ensures x in FalseOxo(t, s).indices <==>
              exists j: nat, k :: Inspected(t, s, j) && 0 <= k < Cn(s, j)
                && TerminalOxo(s, ConnectedSites(s, j)[k]) && x == SoleNeighbor(s, ConnectedSites(s, j)[k])
  {
    var metals := IndicesOf(t, Metal, s.species);
    if x in FalseOxo(t, s).indices {
      OxoOverMetalsSound(t, s, metals, x);
    }
    if exists j: nat, k :: Inspected(t, s, j) && 0 <= k < Cn(s, j)
         && TerminalOxo(s, ConnectedSites(s, j)[k]) && x == SoleNeighbor(s, ConnectedSites(s, j)[k]) {
      var j: nat, k :| Inspected(t, s, j) && 0 <= k < Cn(s, j)
         && TerminalOxo(s, ConnectedSites(s, j)[k]) && x == SoleNeighbor(s, ConnectedSites(s, j)[k]);
      assert j in metals;
      var p :| 0 <= p < |metals| && metals[p] == j;
      OxoOverMetalsComplete(t, s, metals, p, k);
    }
  }

  // ---------------------------------------------------------------------------------
  // Geometrically exposed metals

  /** Open-angle threshold in degrees. */
  const ExposedThreshold: real := 80.0

  /** `has_open_angle`: the open angle exceeds the threshold; a NaN angle never does. */
  predicate HasOpenAngle(m: Measurements, i: nat, threshold: real) {
    match m.openAngle(i)
    case Some(a) => a > threshold
    case None => false
  }

  /** `GeometricallyExposedMetal`: alkali/alkaline-earth candidates come first, then the
      rare-earth ones; a candidate is flagged when its open angle exceeds 80 degrees. */
  function GeometricallyExposedMetal(t: PeriodicTable, s: Structure, m: Measurements): (r: IndexOutcome)
    ensures r.ok <==> |r.indices| == 0
    ensures forall i: nat :: i in r.indices <==>
              i < Size(s) && (s.species[i] in t.alkali || s.species[i] in t.alkaline || s.species[i] in t.rareEarth)
              && HasOpenAngle(m, i, ExposedThreshold)
    ensures r.indices == Keep(IndicesOf(t, AlkaliAlkaline, s.species), (i: nat) => HasOpenAngle(m, i, ExposedThreshold))
                         + Keep(IndicesOf(t, RareEarth, s.species), (i: nat) => HasOpenAngle(m, i, ExposedThreshold))
  {
    var candidates := IndicesOf(t, AlkaliAlkaline, s.species) + IndicesOf(t, RareEarth, s.species);
    KeepAppend(IndicesOf(t, AlkaliAlkaline, s.species), IndicesOf(t, RareEarth, s.species), (i: nat) => HasOpenAngle(m, i, ExposedThreshold));
    Outcome(Keep(candidates, (i: nat) => HasOpenAngle(m, i, ExposedThreshold)))
  }
}
