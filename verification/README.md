# mofchecker core in Dafny

A model of the decision logic of mofchecker, a sanity checker for crystal structures of
metal-organic frameworks (MOFs). The model covers three code bases that live side by side
in the repository:

- the current package (`src/mofchecker`): the memoised check base classes, the
  index-flagging checks on the structure graph, the missing-hydrogen heuristics, the
  atomic-overlap check, the radius tables with their median fallback, the open-metal-site
  (OMS) classifier with its order-parameter table, the zeo++ result parsing and porosity
  verdict, the Wyckoff-letter symmetry hashes, and the `MOFChecker` facade with its graph
  caches, property aliases and descriptor mapping;
- the legacy package (`mofchecker`): the monolithic `MOFChecker` with its memoised
  booleans, lone-atom and low-metal-coordination tests, neighbour-strategy dispatch, the
  clean graph used for hashing, and the legacy order-parameter table and heuristics;
- the stand-alone `omsdetector`, whose order-parameter table has no weights.

A crystal is a `Crystal.Structure`: one species string per site and, per site, its
connected sites (index, periodic image, bond length). Everything geometric (angles,
dihedrals, distances, radius-search counts, the cone open angle, local order parameters,
hydrogen placements) comes in as exact values through `Crystal.Measurements`. Element
classes (the package's `METALS` list, pymatgen's `is_metal`, rare earths, alkali and
alkaline earths, lanthanoids, actinoids, elements with an atomic radius) come in as sets
through `Crystal.PeriodicTable`. The coordination number of a site is the length of its
connected-site list. Memoised properties and `cached_property` slots are values passed in
and returned (`CheckBase.Cell`, `Checker.Caches`, `LegacyChecker.LegacyChecker`,
`Oms.OmsMemo`), so "computed once" is a statement about run counters and returned states.

The three OMS revisions share one classifier, `Oms.SiteOpen`, selected by
`Oms.Revision`: `Current` (src table, CN-4 weights summing to 1.4), `Legacy` (legacy
table, CN-4 weights summing to 1.0) and `Detector` (no weights, CN below 3 is low, a high
coordination number propagates as an error).

## Model

| member | source | states |
|---|---|---|
| CheckBase.Read | src/mofchecker/checks/check_base.py:24-27 | a filled slot is returned unchanged; an empty slot runs the getter once and keeps its value |
| CheckBase.IsOkRunsOnce | src/mofchecker/checks/check_base.py:24-27 | any number of `is_ok` reads on a fresh check run `_run_check` exactly once and all return its first value, whatever it is (None included) |
| CheckBase.FilledCellIsStable | mofchecker/checks/check_base.py:14-16 | once the slot holds a value, later reads never rerun the check and always see that value |
| CheckBase.ReadIndex | mofchecker/checks/check_base.py:29-42 | `is_ok` and `flagged_indices` return their own filled slot untouched; otherwise they, like the pair accessor, return the matching component of the pair (the cached one, or else the one run now) and store it; a filled pair slot is never replaced |
| CheckBase.IndexCheckRunsOnce | src/mofchecker/checks/check_base.py:49-65 | whichever accessor comes first, the pair is computed once and every `is_ok`/`flagged_indices` read is the matching component of that one pair |
| CheckBase.SettledMissingSession | mofchecker/checks/check_base.py:60-78 | once the triple is cached, `is_ok`, `flagged_indices` and `candidate_positions` are its components and the slot never changes |
| CheckBase.MissingCheckRunsOnce | src/mofchecker/checks/check_base.py:87-109 | from a fresh check, any access sequence runs `_run_check` once and every view is a component of that triple |
| Indices.IndicesOf | src/mofchecker/checks/utils/get_indices.py:37-47 | the index list of a category holds exactly the sites of that category, strictly increasing and in range |
| Indices.SingleElementListsDisjoint | src/mofchecker/checks/utils/get_indices.py:50-63 | no site is in two of the C, H, N and O lists |
| Indices.AnyNeighborMetal | src/mofchecker/checks/utils/get_indices.py:131-132 | true iff at least one connected site is a metal of the `METALS` list |
| GlobalStructure.HasCategory | src/mofchecker/checks/global_structure/__init__.py:13-15 | the carbon, hydrogen, nitrogen and metal presence checks pass iff some site has that kind, iff its index list is non-empty |
| Coordination.OverCoordinatedCarbon | src/mofchecker/checks/local_structure/overcoordinated_carbon.py:24-37 | flags exactly the carbons with CN above 4 and no metal neighbour, ascending; passes iff none |
| Coordination.OverCoordinatedNitrogen | src/mofchecker/checks/local_structure/overcoordinated_nitrogen.py:26-39 | flags exactly the nitrogens with CN above 4 and no metal neighbour, ascending; passes iff none |
| Coordination.OverCoordinatedHydrogen | src/mofchecker/checks/local_structure/overcoordinated_hydrogen.py:37-51 | flags exactly the H sites with more than one site inside the van der Waals radius of H, with no metal exemption; passes iff none |
| Coordination.UnderCoordinatedRareEarth | src/mofchecker/checks/local_structure/undercoordinated_rare_earth.py:28-46 | flags exactly the rare-earth sites with CN below 4, ascending; passes iff none |
| Coordination.UnderCoordinatedAlkaliAlkaline | src/mofchecker/checks/local_structure/undercoordinated_alkaline.py:35-51 | flags exactly the alkali and alkaline-earth sites with CN below 4, in candidate order; passes iff none |
| Coordination.OxoEntries | src/mofchecker/checks/local_structure/false_oxo.py:85-90 | one entry per terminal-oxygen neighbour, without deduplication |
| Coordination.OxoEntriesComplete | src/mofchecker/checks/local_structure/false_oxo.py:86-90 | every terminal-oxygen neighbour contributes the sole connected site of that oxygen |
| Coordination.OxoEntriesSound | src/mofchecker/checks/local_structure/false_oxo.py:85-90 | every entry comes from some terminal-oxygen neighbour |
| Coordination.OxoOverMetalsComplete | src/mofchecker/checks/local_structure/false_oxo.py:79-92 | every terminal oxygen on an inspected metal of the candidate list is reported |
| Coordination.OxoOverMetalsSound | src/mofchecker/checks/local_structure/false_oxo.py:83-90 | every report comes from a terminal oxygen on a metal in the no-terminal-oxo list |
| Coordination.FalseOxo | src/mofchecker/checks/local_structure/false_oxo.py:75-77 | the check passes iff nothing is reported |
| Coordination.FalseOxoReports | src/mofchecker/checks/local_structure/false_oxo.py:15-47 | a site is reported iff it is the sole neighbour of a terminal oxygen bound to a metal of the no-terminal-oxo list |
| Coordination.GeometricallyExposedMetal | src/mofchecker/checks/local_structure/geometrically_exposed_metal.py:32-47 | alkali/alkaline-earth candidates come before rare earths, transition metals are never examined, and a candidate is flagged iff its open angle exceeds 80 degrees |
| Undercoordination.CarbonScan | src/mofchecker/checks/local_structure/undercoordinated_carbon.py:40-69 | keeps the flagged candidates in order with one position entry each: three sp3 positions for CN 1, one sp2 position for CN 2 |
| Undercoordination.UnderCoordinatedCarbon | src/mofchecker/checks/local_structure/undercoordinated_carbon.py:28-38 | flags exactly the carbons with one neighbour or with two at a bent angle, ascending, with as many position entries as flags; passes iff none |
| Undercoordination.CarbonCoordinationRange | src/mofchecker/checks/local_structure/undercoordinated_carbon.py:50-67 | a carbon with no neighbour or with three or more is never flagged |
| Undercoordination.NitrogenScan | src/mofchecker/checks/local_structure/undercoordinated_nitrogen.py:39-76 | flags exactly the candidates the CN-based rule at tolerance 25 accepts, with one position per flag |
| Undercoordination.UnderCoordinatedNitrogen | src/mofchecker/checks/local_structure/undercoordinated_nitrogen.py:31-37 | flags exactly the nitrogens the rule accepts, ascending, positions matching flags; passes iff none |
| Undercoordination.LegacyUnderCoordinatedNitrogen | mofchecker/checks/local_structure/undercoordinated_nitrogen.py:17-59 | the legacy check flags exactly the nitrogens the tolerance-10 legacy rule accepts and reports no positions |
| Heuristics.MaximumAngle | src/mofchecker/checks/local_structure/geometry.py:46-48 | the larger of the angle and its distance to 180; between 90 and 180 for angles in [0, 180] |
| Heuristics.BentCarbonAngle | src/mofchecker/checks/local_structure/undercoordinated_carbon.py:58-63 | for an angle in [0, 180], the carbon test holds iff the angle is more than the tolerance away from both 0 and 180 |
| Heuristics.MakeVec | src/mofchecker/checks/local_structure/geometry.py:182-187 | the vector that carries `start` onto `end` |
| Heuristics.AddSpHydrogen | src/mofchecker/checks/local_structure/geometry.py:190-195 | succeeds iff there is exactly one neighbour, otherwise an assertion error |
| Heuristics.AddSp2Hydrogen | src/mofchecker/checks/local_structure/geometry.py:198-207 | succeeds iff there are exactly two neighbours, otherwise an assertion error |
| Heuristics.AddMethyleneHydrogens | src/mofchecker/checks/local_structure/geometry.py:210-227 | succeeds iff there are exactly two neighbours and then returns two positions |
| Heuristics.AddSp3Hydrogen | src/mofchecker/checks/local_structure/geometry.py:247-258 | succeeds iff there are at least two neighbours, otherwise an index error |
| Heuristics.AddSp3HydrogensOnCn1 | src/mofchecker/checks/local_structure/geometry.py:261-289 | succeeds iff there is a neighbour and then returns three positions |
| Heuristics.UnderboundNitrogenCn3 | src/mofchecker/checks/local_structure/geometry.py:58-92 | true iff the angle between the first two neighbours is below 110 + tol, a neighbour is a metal and exactly two neighbours are H |
| Heuristics.LegacyUnderboundNitrogenCn3 | mofchecker/checks/local_structure/geometry.py:35-74 | the legacy rule: the smallest of the three neighbour-pair angles plus tol is below 110, with a metal neighbour and exactly two H neighbours |
| Heuristics.LegacyCn3Stricter | mofchecker/checks/local_structure/geometry.py:51-54 | when the site angle is no larger than any neighbour-pair angle, whatever the legacy minimum-angle rule flags the current rule flags too |
| Heuristics.UnderboundNitrogenCn2 | src/mofchecker/checks/local_structure/geometry.py:95-179 | a nearly linear nitrogen is never flagged; otherwise flagged iff the smallest dihedral is within tol of 0 or 180 and not both bonds are shorter than 1.4 |
| Heuristics.LegacyUnderboundNitrogenCn2 | mofchecker/checks/local_structure/geometry.py:77-145 | the legacy rule: linear is fine, below 115 degrees flagged iff the mean dihedral is away from planar, otherwise flagged iff a neighbour is H |
| Overlap.ComputeOverlapMatrix | src/mofchecker/checks/local_structure/overlapping_atoms.py:42-69 | entry (a, b) is 1 iff a and b differ and their distance is below tolerance times the smaller radius, else 0 |
| Overlap.OverlapSymmetric | src/mofchecker/checks/local_structure/overlapping_atoms.py:60-68 | the overlap relation is symmetric and irreflexive |
| Overlap.RowsWithEntries | src/mofchecker/checks/local_structure/overlapping_atoms.py:72-80 | exactly the atoms with a non-zero entry, each once (the model lists them ascending; see "Left out") |
| Overlap.AtomicOverlaps | src/mofchecker/checks/local_structure/overlapping_atoms.py:32-34 | reports each atom overlapping some other atom under covalent radii exactly once; passes iff none |
| Radii.Median | src/mofchecker/checks/data/__init__.py:9-10 | the median of a table lies between its smallest and largest value |
| Radii.ListedRadius | src/mofchecker/checks/data/__init__.py:13-16 | a listed element gets its listed radius |
| Radii.CovalentRadius | src/mofchecker/checks/data/__init__.py:13-20 | the table value for a known element, the median of the table otherwise |
| Radii.VdwRadius | src/mofchecker/checks/data/__init__.py:23-30 | the table value for a known element, the median of the van der Waals table otherwise |
| Oms.MotifNames | src/mofchecker/checks/oms/definitions.py:14-32 | each row's motif names are non-empty and distinct |
| Oms.OpenMask | omsdetector/definitions.py:8-29 | the open mask is missing exactly for CN 8 and otherwise indexes the row's names |
| Oms.CurrentWeights | src/mofchecker/checks/oms/definitions.py:15-31 | one weight per motif name in the current table |
| Oms.LegacyWeights | mofchecker/definitions.py:10-28 | one weight per motif name in the legacy table |
| Oms.OpDef | src/mofchecker/checks/oms/definitions.py:14-32 | rows exist exactly for CN 4 to 8, are well formed, have weights except in the detector table, and lack a mask exactly at CN 8 |
| Oms.WeightTotals | src/mofchecker/checks/oms/definitions.py:17-22 | the weights are not normalised: CN 4 sums to 1.4 and CN 5 to 2.0 (1.0 and 2.2 in the legacy table) |
| Oms.DetectorSixRow | omsdetector/definitions.py:17-20 | the detector's CN-6 row lists hex_plan_max, pent_pyr and oct with open mask [0, 1] |
| Oms.RatioAboveHalf | src/mofchecker/checks/oms/__init__.py:116-124 | with a positive total, the open ratio exceeds one half iff the open sum exceeds the closed sum |
| Oms.CheckIfOpen | src/mofchecker/checks/oms/__init__.py:116-124 | no order parameters give None, no mask gives False, otherwise the weighted open ratio against one half |
| Oms.OpenVerdictScaleInvariant | src/mofchecker/checks/oms/__init__.py:119-124 | scaling every order parameter by a positive factor does not change the verdict |
| Oms.GetOpsForSite | src/mofchecker/checks/oms/__init__.py:151-182 | low CN and CN above 8 are the two errors; otherwise the row for the site's CN with one order parameter per motif |
| Oms.SiteOpen | src/mofchecker/checks/oms/__init__.py:184-206 | low CN is open, CN above 8 is unknown (an error in the detector), CN 8 is closed, CN 4 to 7 follows the weighted ratio, and the detector never opens CN 3 to 8 |
| Oms.IsSiteOpen | mofchecker/__init__.py:532-554 | a recorded site is open without recomputation; the record only grows, only with open sites |
| Oms.MetalSites | omsdetector/__init__.py:18-21 | the detector selects metals by pymatgen's `is_metal`, the packages by their `METALS` list, ascending |
| Oms.CheckOms | src/mofchecker/checks/oms/__init__.py:90-113 | no metal raises NoMetal; otherwise the open metals in metal-index order |
| Oms.OmsOutcome | src/mofchecker/checks/oms/__init__.py:86-88 | the check passes iff no metal is open, and reports those metals |
| Oms.DescriptorForSite | src/mofchecker/checks/oms/__init__.py:126-149 | the metal is the site's composition string ("Cu1"); low CN gives open with no CN or parameters, CN above 8 gives unknown, CN 4 to 8 gives CN, parameters and verdict; the detector variant always fails |
| Oms.CompositionStringInjective | src/mofchecker/checks/oms/__init__.py:127 | distinct elements print as distinct species strings, so the descriptor's metal names the element |
| Oms.MetalDescriptorsForSite | src/mofchecker/checks/oms/__init__.py:56-60 | NoMetal without metals; otherwise that site's descriptor, recording it when it is open with CN at least 4 |
| Oms.MetalDescriptors | src/mofchecker/checks/oms/__init__.py:71-84 | NoMetal without metals; otherwise one descriptor per metal site, each the site's own |
| Oms.FirstOpen | omsdetector/__init__.py:141-153 | scans metals until one is open; fails only when some scanned site has CN above 8 in the detector |
| Oms.HasOms | mofchecker/__init__.py:687-712 | NoMetal iff there is no metal; otherwise true iff some metal is open, memoised |
| Oms.HasOmsMemoised | mofchecker/__init__.py:702-712 | a second `has_oms` returns the stored answer and state |
| Oms.DetectorOpenOnlyWhenLow | omsdetector/__init__.py:77-100 | the detector calls a site open iff its CN is below 3 |
| Zeopp.Tokens | src/mofchecker/checks/zeopp.py:72 | whitespace splitting: non-empty tokens without blanks that together spell the line without its blanks |
| Zeopp.TokensOfJoined | src/mofchecker/checks/zeopp.py:72 | splitting words joined by blanks gives the words back |
| Zeopp.Field | src/mofchecker/checks/zeopp.py:75-77 | a missing token is an index error, a malformed one a value error, otherwise its float |
| Zeopp.ParseZeopp | src/mofchecker/checks/zeopp.py:61-80 | reads tokens 1, 2 and 3 of the first line as lis, lifs and lifsp; fails iff one of them is missing or not a number, with the error (IndexError or ValueError) of the first failing field in the order 1, 2, 3 |
| Zeopp.ParseZeoppValueError | src/mofchecker/checks/zeopp.py:72-77 | a present field among 1, 2 and 3 that is not a number, after fields that are, makes the parse a `ValueError` whatever follows |
| Zeopp.ParseIgnoresLaterLines | src/mofchecker/checks/zeopp.py:71 | lines after the first never change the result |
| Zeopp.ParseReadsFields | mofchecker/zeopp.py:45-64 | a line "name lis lifs lifsp" parses to the three numbers in order, the name ignored |
| Zeopp.UnsignedPointDecimal | src/mofchecker/checks/zeopp.py:75-77 | an unsigned `digits.digits` token reads as the whole part plus the fraction |
| Zeopp.ReadsDecimal | src/mofchecker/checks/zeopp.py:75-77 | a plain decimal token reads as its value |
| Zeopp.CheckIfPorous | src/mofchecker/checks/zeopp.py:83-103 | None without zeo++; otherwise porous iff the largest free sphere reaches the threshold |
| Zeopp.PorousMonotone | src/mofchecker/checks/zeopp.py:97-100 | porous at a threshold stays porous at every lower one |
| Zeopp.PorosityVerdict | src/mofchecker/checks/zeopp.py:124-125 | the porosity check passes iff zeo++ ran and the largest free sphere is at least 2.4 |
| SymmetryHash.TightHash | src/mofchecker/symmetry/hash.py:36-39 | the Wyckoff letters followed by the spacegroup number; length letters plus digits |
| SymmetryHash.TightHashRoundTrip | src/mofchecker/symmetry/hash.py:36-39 | letters and spacegroup number are read back from the tight hash |
| SymmetryHash.TightHashInjective | src/mofchecker/symmetry/hash.py:37-39 | different letter strings or spacegroups give different tight hashes |
| SymmetryHash.LooseHashAsWritten | src/mofchecker/symmetry/hash.py:40-43 | the loose hash over whatever order the letter set is enumerated in ends with the spacegroup number |
| SymmetryHash.LooseHashDependsOnSetOrder | src/mofchecker/symmetry/hash.py:41 | the letter set {a, b} may be enumerated as "ab" or "ba", and the two give different loose hashes whenever the digest tells those strings apart |
| SymmetryHash.LooseHash | src/mofchecker/symmetry/hash.py:40-43 | the loose hash over the letter set in sorted order, ending with the spacegroup number |
| SymmetryHash.LooseHashDependsOnlyOnLetterSet | src/mofchecker/symmetry/hash.py:40-43 | letter strings with the same set of letters and the same spacegroup give the same loose hash |
| SymmetryHash.HashesShareSuffix | src/mofchecker/symmetry/hash.py:37-43 | tight and loose hash end in the same spacegroup number |
| SymmetryHash.LetterCounts | src/mofchecker/symmetry/hash.py:40 | `Counter` over the letters: exactly one pair per letter present, holding the number of sites that carry it |
| SymmetryHash.LooseHashCounted | src/mofchecker/symmetry/hash.py:40-43 | the count-aware loose hash: the digest of the sorted letter counts, then the spacegroup number |
| SymmetryHash.LooseHashCountedIgnoresOrder | src/mofchecker/symmetry/__init__.py:49-52 | letter strings with the same letters, each as often, in one spacegroup give the same count-aware hash |
| SymmetryHash.LetterCountsDetermineLetters | src/mofchecker/symmetry/__init__.py:51-52 | the digested counts determine how often each letter occurs |
| SymmetryHash.LooseHashCountedSeesMultiplicity | src/mofchecker/symmetry/__init__.py:51-52 | "ab" and "aab" share the set-form loose hash but not the count-aware digest input |
| SymmetryHash.MakeHashable | src/mofchecker/symmetry/hash.py:17-19 | the counter's pairs, each once, sorted by key |
| SymmetryHash.MakeHashableCanonical | src/mofchecker/symmetry/hash.py:17-19 | counters with the same pairs give the same hashable form whatever their order |
| Graph.ConstructCleanGraph | mofchecker/graph/__init__.py:19-31 | one undirected edge per connected pair; nodes are exactly the atoms on some edge, each labelled with its species |
| Graph.CleanGraphForgetsDirectionAndImages | mofchecker/checks/hash.py:8-20 | edge lists joining the same pairs give the same clean graph, whatever their direction, keys or images |
| Graph.GraphCn | mofchecker/graph/__init__.py:34-35 | the coordination number is the number of connected sites |
| Graph.GetLocalEnvMethod | mofchecker/graph/__init__.py:38-54 | each of the six names selects its strategy regardless of case; any other name selects JmolNN |
| Graph.LocalEnvMethodIgnoresCase | mofchecker/graph/__init__.py:38-54 | names equal up to case select the same strategy |
| Graph.SetCnn | mofchecker/__init__.py:480-497 | the current method is kept as is; otherwise the strategy of the lower-cased name is installed |
| Graph.DefaultCnnIsVesta | mofchecker/__init__.py:123-124 | construction installs the shared vesta preset |
| Graph.SetCnnIdempotent | mofchecker/__init__.py:480-482 | choosing the same method twice is the same as choosing it once |
| Utils.CheckMetalCoordination | src/mofchecker/utils.py:16-35 | true iff the element is a lanthanoid, an actinoid or one of Mo, Cr, Hf, Mb with CN at most 4; every other metal is false |
| Utils.MetalCoordinationAntitone | mofchecker/utils.py:5-25 | fewer neighbours never clear the low-coordination verdict |
| Utils.CheckIfOrdered | src/mofchecker/utils.py:44-54 | disordered structures are refused first; an ordered one is refused at the first element without an atomic radius, and accepted iff there is none |
| Utils.AcceptedHaveRadii | mofchecker/utils.py:34-44 | every species of an accepted structure has an atomic radius |
| Utils.SameStructureIsEquivalence | src/mofchecker/utils.py:66-73 | equality by dictionary hash is an equivalence and holds for equal dictionaries |
| ChargeCheck.ChargeCheckOutcome | src/mofchecker/checks/charge_check.py:35-48 | None without charges; otherwise passes iff every charge is within 3 in magnitude |
| Checker.Visit | src/mofchecker/__init__.py:462-506 | a built graph is never rebuilt, one access builds at most once, and after it the graph is built unless a stored dictionary entry answered |
| Checker.FirstVisitSettles | src/mofchecker/__init__.py:469-474 | the first access of a fresh checker builds the graph once and answers from it |
| Checker.SettledSession | src/mofchecker/__init__.py:476-506 | once settled, every access answers what the one built graph gives and the caches stay consistent with it |
| Checker.GraphBuiltOnce | src/mofchecker/__init__.py:464-474 | any access sequence builds the graph exactly once and `nx_graph`, connected sites and CNs all come from that build |
| Checker.CheckNamesDistinct | src/mofchecker/__init__.py:150-172 | the registry holds 19 checks under distinct names |
| Checker.HasHighChargesAsWritten | src/mofchecker/__init__.py:449 | true iff the charge verdict is not a definite pass, so an unknown verdict reads as high charges |
| Checker.UnknownChargesReportedHigh | src/mofchecker/__init__.py:440-449 | with no charge verdict the property as written says True, while the documented value is None |
| Checker.HasHighCharges | src/mofchecker/__init__.py:440-448 | None iff the check could not run; otherwise the negated verdict |
| Checker.HighChargesAgreeWhenKnown | src/mofchecker/__init__.py:449 | both readings agree whenever the charge check ran |
| Checker.Attribute | src/mofchecker/__init__.py:283-604 | each problem flag is the negation of its check, presence flags and porosity pass the verdict through, `has_high_charges` is `not is_ok` as written (True when the charge check could not run), `has_oms` raises exactly when the OMS check raises and is otherwise its negation; any other failure is an unknown attribute |
| Checker.HasOmsAttribute | src/mofchecker/__init__.py:600-604 | with the OMS verdict taken from the check, `has_oms` raises `NoMetal` iff the structure has no metal, and otherwise is True iff some metal site is open |
| Checker.AliasesAgree | src/mofchecker/__init__.py:338-346 | `has_overcoordinated_c`, `_h` and `_n` equal `has_overvalent_c`, `_h` and `_n` |
| Checker.ProblemFlagsMirrorChecks | src/mofchecker/__init__.py:381-426 | a problem flag is raised iff its check fails, so a structure passing every check raises none |
| Checker.DescriptorCatalogDistinct | src/mofchecker/__init__.py:59-86 | `DESCRIPTORS` lists 26 distinct names |
| Checker.Dedup | src/mofchecker/__init__.py:620-626 | the keys of the ordered mapping: each requested name once, in first-occurrence order |
| Checker.GetMofDescriptors | src/mofchecker/__init__.py:611-626 | fails iff some requested lookup fails, with the error of the first failing one; otherwise one entry per distinct name with that attribute's value |
| Checker.DefaultDescriptorsNeverRaise | src/mofchecker/__init__.py:59-86 | `has_oms` is not among `DESCRIPTORS`, so the default call never raises `NoMetal`; it can fail only on a catalogue name that is not an attribute |
| Checker.DefaultDescriptorKeys | src/mofchecker/__init__.py:620-621 | without a selection the keys are exactly `DESCRIPTORS` in catalog order |
| Checker.SelectedDescriptorKeys | src/mofchecker/__init__.py:622-626 | a selection of distinct known names gives exactly those keys in request order |
| LegacyChecker.ListsOf | mofchecker/__init__.py:86-111 | the metal, C, H/D/T and N lists hold exactly the matching sites, ascending |
| LegacyChecker.NewChecker | mofchecker/__init__.py:71-124 | refused iff the ordering check refuses, with its error; otherwise the species lists, the vesta strategy and empty memos |
| LegacyChecker.NewCheckerSound | mofchecker/__init__.py:101-124 | a new checker's memos agree with the definitions |
| LegacyChecker.Compute | mofchecker/__init__.py:243-338 | the loops answer true iff some listed site is flagged: over-valent (CN above 4 for C and N, above 1 for H, no metal neighbour), the carbon test as written, or the facade's nitrogen rule |
| LegacyChecker.CarbonPropertyIgnoresAngle | mofchecker/__init__.py:223-231 | the memoised `has_undercoordinated_c` holds iff some carbon has CN 2, is not between two metals and has at most two van der Waals neighbours, whatever its angle |
| LegacyChecker.Property | mofchecker/__init__.py:195-241 | a stored answer is returned as is; otherwise computed, stored under its key, and nothing else changes |
| LegacyChecker.PropertyMemoised | mofchecker/__init__.py:195-207 | asking twice gives the same answer and leaves the state as the first ask left it |
| LegacyChecker.OvervalentCarbonAgrees | mofchecker/__init__.py:243-251 | the legacy facade finds an over-valent carbon exactly when the carbon over-coordination check fails |
| LegacyChecker.OvervalentNitrogenAgrees | mofchecker/__init__.py:263-271 | the legacy facade finds an over-valent nitrogen exactly when the nitrogen over-coordination check fails |
| LegacyChecker.HasUndercoordinatedCarbonAsWritten | mofchecker/__init__.py:273-298 | true iff some CN-2 carbon is not between two metals and has at most two van der Waals neighbours, whatever its angle |
| LegacyChecker.LinearCarbonFlaggedAsWritten | mofchecker/__init__.py:291 | a straight O=C=O carbon at 180 degrees is flagged |
| LegacyChecker.CarbonSiteNeedsBend | mofchecker/__init__.py:284-297 | the corrected test flags a CN-2 carbon only when its angle is more than the tolerance away from 0 and 180, and implies the as-written test |
| LegacyChecker.FacadeNitrogenStricter | mofchecker/__init__.py:300-338 | whatever the facade's tolerance-15 nitrogen rule flags, the tolerance-10 check class flags too |
| LegacyChecker.UndercoordinatedNitrogenImpliesCheck | mofchecker/__init__.py:306-336 | a facade nitrogen flag implies the legacy nitrogen check fails |
| LegacyChecker.HasLoneAtom | mofchecker/__init__.py:438-451 | true iff some site has no connected site and, in safe mode, no van der Waals neighbour |
| LegacyChecker.SafeLoneAtomStricter | mofchecker/__init__.py:428-451 | a lone atom in safe mode is one without it |
| LegacyChecker.HasHighCharges | mofchecker/__init__.py:340-350 | None without charges; otherwise true iff some charge exceeds 3 in magnitude |
| LegacyChecker.HighChargesAgreeWithCheck | mofchecker/__init__.py:363-367 | the legacy answer equals the corrected current property on the current charge check |
| LegacyChecker.IsPorous | mofchecker/__init__.py:352-361 | the first verdict is stored, None included, and returned from then on |
| LegacyChecker.UnknownPorosityIsKept | mofchecker/__init__.py:352-355 | an unknown porosity stays unknown on later calls |
| LegacyChecker.LowMetalCoordination | mofchecker/__init__.py:652-659 | true iff some metal is low-coordinated for its element and open |
| LegacyChecker.LowMetalCoordinationBounds | mofchecker/__init__.py:661-664 | a many-neighbour metal with CN at most 3 is reported, and a report implies some metal with CN at most 4 |
| LegacyChecker.Properties | mofchecker/__init__.py:195-241 | asking the memoised properties in turn answers each one by its definition, stores every asked key, keeps the stored answers and changes nothing else |
| LegacyChecker.NewCheckerDescribes | mofchecker/__init__.py:71-124 | a new checker's species lists are those of the structure it was built from |
| LegacyChecker.LaterEntries | mofchecker/__init__.py:629-630 | `has_undercoordinated_metal` then `is_porous`: the low-coordination answer, only the open-site memo growing, and the first porosity verdict stored and returned |
| LegacyMapping.Mapping | mofchecker/__init__.py:609-633 | the mapping's keys are the given keys, in order, each with the entry of the same position |
| LegacyChecker.MofDescriptors | mofchecker/__init__.py:601-633 | raises `NoMetal` iff the structure has no metal (through `has_oms`, the first entry that can raise); otherwise the name, hash, formula, path, density, overlap and lone-molecule entries are the facade's values, and the checker afterwards has every memoised property stored, the earlier answers kept, the open-site memo only grown, the `has_oms` answer stored and reported, and the same species, lists and strategy |
| LegacyChecker.MofDescriptorsFacadeEntries | mofchecker/__init__.py:626-630 | `has_lone_atom` is True iff some site has no connected site and no van der Waals neighbour; `has_high_charges` is the charge answer; `is_porous` is the stored verdict if any, else the new one, which is then stored |
| LegacyChecker.MofDescriptorsPresence | mofchecker/__init__.py:617-625 | for the structure the checker was built from, `has_metal` is True and `has_carbon` / `has_hydrogen` are True iff a carbon / hydrogen-like site exists |
| LegacyChecker.MofDescriptorsMemoEntries | mofchecker/__init__.py:620-624 | given sound memos, the five over- and under-coordination entries are their properties' definitions |
| LegacyChecker.MofDescriptorsOmsEntries | mofchecker/__init__.py:688-712 | given a sound OMS memo, `has_oms` is True iff some metal site is open and `has_undercoordinated_metal` is True iff some metal is low-coordinated for its element and open |
| LegacyChecker.MofDescriptorsKeepsMemosSound | mofchecker/__init__.py:609-633 | sound property and OMS memos stay sound after the mapping is built |
| LegacyChecker.LegacyDescriptorKeysDistinct | mofchecker/__init__.py:603-632 | the legacy descriptor mapping has 20 distinct keys |
| LegacyChecker.LegacyKeysStillOffered | mofchecker/__init__.py:603-632 | every legacy descriptor key except `has_oms`, `has_lone_atom` and `has_undercoordinated_metal` is still a current descriptor |
| LegacyChecker.RetiredKeysDropped | mofchecker/__init__.py:603-632 | `has_oms`, `has_lone_atom` and `has_undercoordinated_metal` are legacy descriptor keys that the current catalogue no longer offers |

## Left out

- Neighbour finding and graph construction (pymatgen's CrystalNN, VESTA cut-offs, JmolNN, VoronoiNN, `StructureGraph`): the structure graph is input data, and the legacy `_cnn.get_cn` is taken to be the connected-site count.
- Geometry (angles, dihedrals, distances, radius searches, cone angles, order parameters, hydrogen coordinates, rotations, the random orthogonal vector): floating-point numerics and randomness given to the model as exact values through `Crystal.Measurements`.
- Heuristics.AddSp2Hydrogen, Heuristics.AddMethyleneHydrogens and the other placement functions state the neighbour-count assertions and the number of positions, not the coordinates.
- Element tables (`METALS`, rare earths, lanthanoids, atomic radii, covalent and van der Waals radii): parameters, since their contents are data, not logic.
- Oms.CheckIfOpen: numpy's 0/0 is modelled by its outcome (the ratio is NaN, so not open unless the open sum is positive), not by IEEE arithmetic.
- Zeopp.ParseFloat reads plain signed decimals only; exponents, `inf`, `nan` and underscores are treated as a value error, because Python's full `float` grammar is outside the model.
- Zeopp.ParseFloat returns the exact decimal value, while Python's `float` rounds it to the nearest double: "2.39999999999999999999" reads as 2.4 in the source and as the exact decimal here, so the pore diameters are the exact readings, not their double roundings.
- Running zeo++ and EqEq/openbabel, temporary files, `is_tool`, CIF parsing, the pickle database and the command-line tools: I/O. Their outcomes (the result text, the charges or their absence) are inputs.
- Weisfeiler-Lehman graph and scaffold hashes and the SHA-256/base64 digest: external; the digest is a parameter of the loose symmetry hash and only the clean graph fed to hashing is modelled.
- Symmetrisation (spglib), primitive-cell reduction, formula, density and `IStructure.__hash__`: library calls; the symmetrised data and the dictionary hash are inputs.
- Floating molecules, `has_lone_molecule`, dimensionality and `has_3d_connected_graph`: they rely on supercell subgraph extraction in libraries that are not part of this model; their verdicts are inputs to `Checker.Attribute`.
- Graph.Lower folds ASCII letters only, because Python's Unicode `lower` tables are not modelled; strategy names are ASCII.
- The legacy facade imports its `is_metal`, `get_overlaps`, `_vdw_radius_neighbors` and nitrogen heuristics from a `.utils` module that is not part of this model: they are modelled as the `METALS` set, the `vdwShell` measurement and the legacy geometry rules.
- The legacy `checks/zeopp.py` is not part of this model: LegacyChecker.IsPorous takes the porosity verdict as a parameter.
- The legacy check classes that repeat the current ones (over-coordinated C, N and H, false oxo, under-coordinated carbon, overlaps, presence checks, index selection, `_maximum_angle`, the legacy `MOFOMS`) are covered by the same members, since their logic is the same. `Oms.Revision.Legacy` encodes the table of `mofchecker/definitions.py`, which the legacy facade uses; the legacy `MOFOMS` check class reads its table from `mofchecker/checks/oms/definitions.py`, which is not part of this model, and is assumed here to follow the same revision.
- `from_mofchecker` wiring of cached accessors into checks: covered by `Checker.Session`, through which every check reads connected sites and CNs.
- `EXPECTED_CHECK_VALUES` and the check names and descriptions: constant strings with no logic.
- The detector's string form of a site in its descriptors: the detector descriptors are modelled as always failing, because they zip over an absent parameter list.
- Warnings and `print` calls: output only.
- Overlap.RowsWithEntries: reports the overlapping atoms ascending, while the source lists them in Python set-iteration order (for example rows 3 and 9 can come out as 9, 3); only the set of reported atoms and their uniqueness are promised by the source.
- Oms.CompositionString: models `str(site.species)` for an ordered site of a plain element ("Cu1"); species carrying an oxidation state print differently and are not modelled. The same holds for the overlap check, which looks covalent radii up by `str(species)` (src/mofchecker/checks/local_structure/overlapping_atoms.py:74): a decorated species such as "Cu2+" is not in the radius table there and falls back to the median radius, while Overlap.AtomicOverlaps looks radii up by element.
- The legacy connected-site and CN dictionaries: same behaviour as the current caches, modelled once in `Checker.Visit`.
- LegacyChecker.MofDescriptors: the charges are a parameter (what the charge package yields), so the facade's storing of `self.charges` is not part of the returned checker; the name, graph hash, formula, path, density, overlap and lone-molecule entries are taken as given values, because they come from library calls, and the graph they share is covered by `Checker.Visit`.

## Findings

| source | as written | input that shows it | evidently intended | confidence | as-written member | corrected member |
|---|---|---|---|---|---|---|
| src/mofchecker/__init__.py:449 | `has_high_charges` returns `not is_ok`, and `not None` is True | the charge check could not run, so its verdict is None | None when the check could not run, as the docstring says | not executed | Checker.UnknownChargesReportedHigh | Checker.HasHighCharges |
| mofchecker/__init__.py:291 | the angle test compares `abs(180 - 0)` with the tolerance, which always holds | a linear O=C=O carbon with angle 180 and two oxygen neighbours | flag only carbons bent more than the tolerance away from 0 and 180, like the check class | not executed | LegacyChecker.LinearCarbonFlaggedAsWritten | LegacyChecker.CarbonSiteNeedsBend |
| src/mofchecker/symmetry/hash.py:41 | the loose hash digests `tuple(set(letters))`, whose order depends on the string hash seed | letters "ab" enumerated as "ab" in one run and "ba" in another | a hash that does not depend on the enumeration order: over the sorted set of letters (proved here), or, as the docstring "the number and identity" (src/mofchecker/symmetry/__init__.py:51-52), the name `wyckoff_letter_counts` and the unused `Counter`/`make_hashable` suggest, over the letter counts (SymmetryHash.LooseHashCounted, which SymmetryHash.LooseHashCountedIgnoresOrder shows order-free) | not executed | SymmetryHash.LooseHashDependsOnSetOrder | SymmetryHash.LooseHashDependsOnlyOnLetterSet |
