/** The `MOFChecker` facade of the current revision: the lazily built structure graph and
    its per-site caches, the registry of checks and the `has_*` properties read off
    their verdicts, and the descriptor mapping. */
module Checker {
  import opened Wrappers
  import opened Seqs
  import opened Crystal
  import opened CheckBase
  import opened Graph
  import Oms

  // ---------------------------------------------------------------------------------
  // Graph and per-site caches

  /** What one build produces: the structure graph and the clean graph made from it. */
  datatype Built = Built(graph: Structure, nx: LabelledGraph)

  /** The graph slot (filled on first access to `graph` or `nx_graph`) and the
      connected-site and coordination-number dictionaries. `build(k)` stands for the
      k-th call of the graph builder. */
  datatype Caches = Caches(built: Cell<Built>, connected: map<nat, seq<ConnectedSite>>, cns: map<nat, nat>)

  function FreshCaches(): Caches {
    Caches(FreshCell(), map[], map[])
  }

  datatype Access = GraphAccess | NxGraphAccess | ConnectedAccess(site: nat) | CnAccess(site: nat)

  datatype Answer =
    | GraphAnswer(graph: Structure)
    | NxAnswer(nx: LabelledGraph)
    | ConnectedAnswer(sites: seq<ConnectedSite>)
    | CnAnswer(cn: nat)

  /** One access. `nx_graph` goes through `graph`, and the dictionaries consult the graph
      only for an index they have not stored yet. */
  function Visit(st: Caches, a: Access, build: nat -> Built): (r: (Caches, Answer))
    ensures st.built.cached.Some? ==> r.0.built == st.built
    ensures r.0.built.cached.Some? || (a.ConnectedAccess? && a.site in st.connected) || (a.CnAccess? && a.site in st.cns)
    ensures r.0.built.runs <= st.built.runs + 1
  {
    match a
    case GraphAccess =>
      var (c, b) := Read(st.built, build);
      (st.(built := c), GraphAnswer(b.graph))
    case NxGraphAccess =>
      var (c, b) := Read(st.built, build);
      (st.(built := c), NxAnswer(b.nx))
    case ConnectedAccess(i) =>
      if i in st.connected then (st, ConnectedAnswer(st.connected[i]))
      else
        var (c, b) := Read(st.built, build);
        var sites := ConnectedSites(b.graph, i);
        (Caches(c, st.connected[i := sites], st.cns), ConnectedAnswer(sites))
    case CnAccess(i) =>
      if i in st.cns then (st, CnAnswer(st.cns[i]))
      else
        var (c, b) := Read(st.built, build);
        var n := Cn(b.graph, i);
        (Caches(c, st.connected, st.cns[i := n]), CnAnswer(n))
  }

  function Session(st: Caches, accesses: seq<Access>, build: nat -> Built): (r: (Caches, seq<Answer>))
    ensures |r.1| == |accesses|
    ensures r.0.built.runs <= st.built.runs + 1
    ensures st.built.cached.Some? ==> r.0.built.runs == st.built.runs
    decreases |accesses|
  {
    if |accesses| == 0 then (st, [])
    else
      var (st1, v) := Visit(st, accesses[0], build);
      var (st2, vs) := Session(st1, accesses[1..], build);
      (st2, [v] + vs)
  }

  /** What an access shows once the graph `b` is built. */
  function Expected(a: Access, b: Built): Answer {
    match a
    case GraphAccess => GraphAnswer(b.graph)
    case NxGraphAccess => NxAnswer(b.nx)
    case ConnectedAccess(i) => ConnectedAnswer(ConnectedSites(b.graph, i))
    case CnAccess(i) => CnAnswer(Cn(b.graph, i))
  }

  /** The graph was built once, as `b`, and both dictionaries agree with it. */
  ghost predicate Settled(st: Caches, b: Built) {
    st.built == Cell(Some(b), 1)
    && (forall i :: i in st.connected ==> st.connected[i] == ConnectedSites(b.graph, i))
    && (forall i :: i in st.cns ==> st.cns[i] == Cn(b.graph, i))
  }

  lemma {:induction false} SettledSession(st: Caches, b: Built, accesses: seq<Access>, build: nat -> Built)
    requires Settled(st, b)
    ensures Settled(Session(st, accesses, build).0, b)
    ensures forall k :: 0 <= k < |accesses| ==> Session(st, accesses, build).1[k] == Expected(accesses[k], b)
    decreases |accesses|
  {
    if |accesses| > 0 {
      var (st1, v) := Visit(st, accesses[0], build);
      assert Settled(st1, b) && v == Expected(accesses[0], b);
      SettledSession(st1, b, accesses[1..], build);
    }
  }

  /** The first access of a fresh checker builds the graph and settles the caches. */
  lemma FirstVisitSettles(a: Access, build: nat -> Built)
    ensures Settled(Visit(FreshCaches(), a, build).0, build(0))
    ensures Visit(FreshCaches(), a, build).1 == Expected(a, build(0))
  {
    match a
    case GraphAccess =>
    case NxGraphAccess =>
    case ConnectedAccess(i) =>
    case CnAccess(i) =>
  }

  /** Starting from a fresh checker, any sequence of graph, clean-graph, connected-site
      and coordination-number accesses builds the graph exactly once, and every answer
      is the one that single graph gives: the caches never serve a stale value, and
      `nx_graph` comes from the same build as `graph`. */
  lemma GraphBuiltOnce(accesses: seq<Access>, build: nat -> Built)
    requires |accesses| > 0
    ensures Session(FreshCaches(), accesses, build).0.built == Cell(Some(build(0)), 1)
    ensures forall k :: 0 <= k < |accesses| ==> Session(FreshCaches(), accesses, build).1[k] == Expected(accesses[k], build(0))
  {
    var (st1, v) := Visit(FreshCaches(), accesses[0], build);
    FirstVisitSettles(accesses[0], build);
    SettledSession(st1, build(0), accesses[1..], build);
  }

  // ---------------------------------------------------------------------------------
  // The check registry and the properties read off it

  /** The keys of the check dictionary, in construction order. */
  const CheckNames: seq<string> := [
    "has_c", "has_h", "has_metal", "has_nitrogen", "no_atomic_overlaps",
    "no_undercoordinated_carbon", "no_overcoordinated_carbon", "no_overcoordinated_hydrogen",
    "no_overcoordinated_nitrogen", "no_undercoordinated_nitrogen", "no_undercoordinated_rare_earth",
    "no_undercoordinated_alkali_alkaline", "no_geometrically_exposed_metal", "no_floating_molecule",
    "no_high_charges", "is_porous", "no_oms", "no_false_terminal_oxo", "has_3d_connected_graph"]

  lemma CheckNamesDistinct()
    ensures |CheckNames| == 19
    ensures NoDuplicates(CheckNames)
  {
    forall i, j | 0 <= i < j < |CheckNames| ensures CheckNames[i] != CheckNames[j] { }
  }

  /** `is_ok` of every registered check. Only the charge check and the porosity check can
      return None (their external program is missing); the open-metal-site check raises
      `NoMetal` on a structure without metal, which `noOms` carries as its failure. */
  datatype Verdicts = Verdicts(
    hasC: bool, hasH: bool, hasMetal: bool, hasNitrogen: bool,
    noAtomicOverlaps: bool,
    noUndercoordinatedCarbon: bool, noOvercoordinatedCarbon: bool, noOvercoordinatedHydrogen: bool,
    noOvercoordinatedNitrogen: bool, noUndercoordinatedNitrogen: bool,
    noUndercoordinatedRareEarth: bool, noUndercoordinatedAlkaliAlkaline: bool,
    noGeometricallyExposedMetal: bool, noFloatingMolecule: bool,
    noHighCharges: Option<bool>, isPorous: Option<bool>,
    noOms: Result<bool, Oms.OmsError>, noFalseTerminalOxo: bool, has3dConnectedGraph: bool)

  /** The value of a property as the descriptor mapping stores it. */
  datatype Value = Flag(flag: bool) | Tri(tri: Option<bool>) | Info(text: string)

  /** Python's `not` on a tri-state verdict: `not None` is True. */
  function PyNot(o: Option<bool>): (r: bool)
    ensures r <==> !Truthy(o)
  {
    o != Some(true)
  }

  /** `has_high_charges` as written: the negation of the charge verdict, so an unknown
      verdict turns into "has high charges". */
  function HasHighChargesAsWritten(noHighCharges: Option<bool>): (r: bool)
    ensures r <==> noHighCharges != Some(true)
  {
    PyNot(noHighCharges)
  }

  /** When the charge check could not run, the property as written still reports high
      charges. */
  lemma UnknownChargesReportedHigh()
    ensures HasHighChargesAsWritten(None)
    ensures HasHighCharges(None) == None
  {
  }

  /** The documented tri-state: None when the check could not run, otherwise the
      negated verdict. */
  function HasHighCharges(noHighCharges: Option<bool>): (r: Option<bool>)
    ensures r.None? <==> noHighCharges.None?
    ensures r == Some(true) <==> noHighCharges == Some(false)
    ensures r == Some(false) <==> noHighCharges == Some(true)
  {
    match noHighCharges
    case None => None
    case Some(ok) => Some(!ok)
  }

  /** Both definitions agree whenever the charge check ran. */
  lemma HighChargesAgreeWhenKnown(ok: bool)
    ensures HasHighCharges(Some(ok)) == Some(HasHighChargesAsWritten(Some(ok)))
  {
  }

  /** Descriptors that report a problem: each is the negation of one `no_*` check. */
  const ProblemFlags: set<string> := {
    "has_atomic_overlaps", "has_overvalent_c", "has_overcoordinated_c", "has_overvalent_h",
    "has_overcoordinated_h", "has_overvalent_n", "has_overcoordinated_n", "has_undercoordinated_c",
    "has_undercoordinated_n", "has_undercoordinated_rare_earth", "has_undercoordinated_alkali_alkaline",
    "has_geometrically_exposed_metal", "has_lone_molecule", "has_suspicicious_terminal_oxo"}

  /** The `no_*` verdict behind a problem flag. */
  function ProblemCheck(v: Verdicts, name: string): bool
    requires name in ProblemFlags
  {
    match name
    case "has_atomic_overlaps" => v.noAtomicOverlaps
    case "has_overvalent_c" => v.noOvercoordinatedCarbon
    case "has_overcoordinated_c" => v.noOvercoordinatedCarbon
    case "has_overvalent_h" => v.noOvercoordinatedHydrogen
    case "has_overcoordinated_h" => v.noOvercoordinatedHydrogen
    case "has_overvalent_n" => v.noOvercoordinatedNitrogen
    case "has_overcoordinated_n" => v.noOvercoordinatedNitrogen
    case "has_undercoordinated_c" => v.noUndercoordinatedCarbon
    case "has_undercoordinated_n" => v.noUndercoordinatedNitrogen
    case "has_undercoordinated_rare_earth" => v.noUndercoordinatedRareEarth
    case "has_undercoordinated_alkali_alkaline" => v.noUndercoordinatedAlkaliAlkaline
    case "has_geometrically_exposed_metal" => v.noGeometricallyExposedMetal
    case "has_lone_molecule" => v.noFloatingMolecule
    case _ => v.noFalseTerminalOxo
  }

  /** Why looking up an attribute fails: the name is not an attribute (`AttributeError`),
      or computing the property raised. */
  datatype AttributeError = NoSuchAttribute(name: string) | Raised(error: Oms.OmsError)

  /** `getattr(checker, name)` for the properties backed by checks; every other attribute
      (name, path, formula, density, the hashes) comes from `info`, where None means that
      the attribute does not exist. `has_high_charges` is the property as written. */
  function Attribute(v: Verdicts, info: string -> Option<Value>, name: string): (r: Result<Value, AttributeError>)
    ensures name in ProblemFlags ==> r == Success(Flag(!ProblemCheck(v, name)))
    ensures name == "has_carbon" ==> r == Success(Flag(v.hasC))
    ensures name == "has_hydrogen" ==> r == Success(Flag(v.hasH))
    ensures name == "has_metal" ==> r == Success(Flag(v.hasMetal))
    ensures name == "has_3d_connected_graph" ==> r == Success(Flag(v.has3dConnectedGraph))
    ensures name == "is_porous" ==> r == Success(Tri(v.isPorous))
    ensures name == "has_high_charges" ==> r == Success(Flag(HasHighChargesAsWritten(v.noHighCharges)))
    ensures name == "has_oms" ==> (r.Failure? <==> v.noOms.Failure?)
    ensures name == "has_oms" && v.noOms.Failure? ==> r == Failure(Raised(v.noOms.error))
    ensures name == "has_oms" && v.noOms.Success? ==> r == Success(Flag(!v.noOms.value))
    ensures r.Failure? ==> name == "has_oms" || (info(name).None? && r == Failure(NoSuchAttribute(name)))
  {
    if name in ProblemFlags then Success(Flag(!ProblemCheck(v, name)))
    else match name
      case "has_carbon" => Success(Flag(v.hasC))
      case "has_hydrogen" => Success(Flag(v.hasH))
      case "has_metal" => Success(Flag(v.hasMetal))
      case "has_3d_connected_graph" => Success(Flag(v.has3dConnectedGraph))
      case "is_porous" => Success(Tri(v.isPorous))
      case "has_high_charges" => Success(Flag(HasHighChargesAsWritten(v.noHighCharges)))
      case "has_oms" =>
        (match v.noOms
         case Failure(e) => Failure(Raised(e))
         case Success(ok) => Success(Flag(!ok)))
      case _ => if info(name).Some? then Success(info(name).value) else Failure(NoSuchAttribute(name))
  }

  /** With the open-metal-site verdict taken from the check itself, `has_oms` raises
      `NoMetal` exactly when the structure has no metal, and otherwise reports whether
      some metal site is open. */
  lemma HasOmsAttribute(t: PeriodicTable, s: Structure, m: Measurements, v: Verdicts, info: string -> Option<Value>)
    requires var o := Oms.OmsOutcome(Oms.Current, t, s, m);
             v.noOms == if o.Success? then Success(o.value.0) else Failure(o.error)
    ensures Attribute(v, info, "has_oms") == Failure(Raised(Oms.NoMetal)) <==> |Oms.MetalSites(Oms.Current, t, s)| == 0
    ensures Attribute(v, info, "has_oms").Success? ==>
              (Attribute(v, info, "has_oms") == Success(Flag(true)) <==>
                exists i: nat :: i < Size(s) && s.species[i] in t.metals && Oms.ReportsOpen(Oms.Current, s, m, i))
  {
    var o := Oms.OmsOutcome(Oms.Current, t, s, m);
    if o.Failure? {
      assert o.error == Oms.NoMetal by { assert Oms.CheckOms(Oms.Current, t, s, m, {}).Failure?; }
    }
  }

  /** The `has_overcoordinated_*` aliases give the same value as `has_overvalent_*`. */
  lemma AliasesAgree(v: Verdicts, info: string -> Option<Value>)
    ensures Attribute(v, info, "has_overcoordinated_c") == Attribute(v, info, "has_overvalent_c")
    ensures Attribute(v, info, "has_overcoordinated_h") == Attribute(v, info, "has_overvalent_h")
    ensures Attribute(v, info, "has_overcoordinated_n") == Attribute(v, info, "has_overvalent_n")
  {
  }

  /** A structure that passes every `no_*` check raises no problem flag, and a problem
      flag is raised exactly when its check fails. */
  lemma ProblemFlagsMirrorChecks(v: Verdicts, info: string -> Option<Value>, name: string)
    requires name in ProblemFlags
    ensures Attribute(v, info, name) == Success(Flag(true)) <==> !ProblemCheck(v, name)
    ensures v.noAtomicOverlaps && v.noOvercoordinatedCarbon && v.noOvercoordinatedHydrogen
      && v.noOvercoordinatedNitrogen && v.noUndercoordinatedCarbon && v.noUndercoordinatedNitrogen
      && v.noUndercoordinatedRareEarth && v.noUndercoordinatedAlkaliAlkaline
      && v.noGeometricallyExposedMetal && v.noFloatingMolecule && v.noFalseTerminalOxo
      ==> Attribute(v, info, name) == Success(Flag(false))
  {
  }

  // ---------------------------------------------------------------------------------
  // `DESCRIPTORS` and `get_mof_descriptors`

  const Descriptors: seq<string> := [
    "name", "graph_hash", "undecorated_graph_hash", "decorated_scaffold_hash",
    "undecorated_scaffold_hash", "symmetry_hash", "formula", "path", "density",
    "has_carbon", "has_hydrogen", "has_atomic_overlaps", "has_overcoordinated_c",
    "has_overcoordinated_n", "has_overcoordinated_h", "has_undercoordinated_c",
    "has_undercoordinated_n", "has_undercoordinated_rare_earth", "has_metal",
    "has_lone_molecule", "has_high_charges", "is_porous", "has_suspicicious_terminal_oxo",
    "has_undercoordinated_alkali_alkaline", "has_geometrically_exposed_metal",
    "has_3d_connected_graph"]

  lemma DescriptorCatalogDistinct()
    ensures |Descriptors| == 26
    ensures NoDuplicates(Descriptors)
  {
    forall i, j | 0 <= i < j < |Descriptors| ensures Descriptors[i] != Descriptors[j] { }
  }

  /** Position of the first occurrence. */
  function FirstIndex(xs: seq<string>, x: string): (k: nat)
    requires x in xs
    ensures k < |xs| && xs[k] == x && x !in xs[..k]
  {
    if xs[0] == x then 0
    else
      var k := 1 + FirstIndex(xs[1..], x);
      assert xs[..k] == [xs[0]] + xs[1..][..k - 1];
      k
  }

  lemma {:induction false} FirstIndexOfPrefix(xs: seq<string>, n: nat, x: string)
    requires n <= |xs| && x in xs[..n]
    ensures x in xs && FirstIndex(xs, x) == FirstIndex(xs[..n], x)
    decreases n
  {
    assert xs[..n] == [xs[0]] + xs[1..][..n - 1];
    if xs[0] != x {
      FirstIndexOfPrefix(xs[1..], n - 1, x);
    }
  }

  /** The keys an `OrderedDict` built from `names` ends up with: each name once, in the
      order of its first occurrence. */
  function Dedup(names: seq<string>): (r: seq<string>)
    ensures NoDuplicates(r)
    ensures forall x :: x in r <==> x in names
    ensures forall i, j :: 0 <= i < j < |r| ==> FirstIndex(names, r[i]) < FirstIndex(names, r[j])
    ensures NoDuplicates(names) ==> r == names
    decreases |names|
  {
    if |names| == 0 then []
    else
      var init := names[..|names| - 1];
      var last := names[|names| - 1];
      var d := Dedup(init);
      assert names == init + [last];
      forall y | y in d ensures FirstIndex(names, y) == FirstIndex(init, y) {
        FirstIndexOfPrefix(names, |names| - 1, y);
      }
      if last in init then d
      else
        assert FirstIndex(names, last) == |names| - 1;
        d + [last]
  }

  /** The first requested name whose lookup fails, or the number of names. */
  function FirstFailing<V, E>(names: seq<string>, attr: string -> Result<V, E>): (k: nat)
    ensures k <= |names|
    ensures forall i :: 0 <= i < k ==> attr(names[i]).Success?
    ensures k < |names| ==> attr(names[k]).Failure?
  {
    if |names| == 0 then 0
    else if attr(names[0]).Failure? then 0
    else 1 + FirstFailing(names[1..], attr)
  }

  function Keys<V>(entries: seq<(string, V)>): (r: seq<string>)
    ensures |r| == |entries| && forall i :: 0 <= i < |entries| ==> r[i] == entries[i].0
  {
    seq(|entries|, i requires 0 <= i < |entries| => entries[i].0)
  }

  /** The entries of the mapping when every lookup succeeds. */
  function Entries<V, E>(names: seq<string>, attr: string -> Result<V, E>): (r: seq<(string, V)>)
    requires forall i :: 0 <= i < |names| ==> attr(names[i]).Success?
    ensures Keys(r) == Dedup(names)
    ensures forall i :: 0 <= i < |r| ==> attr(r[i].0) == Success(r[i].1)
  {
    var d := Dedup(names);
    assert forall i :: 0 <= i < |d| ==> d[i] in names;
    seq(|d|, i requires 0 <= i < |d| => (d[i], attr(d[i]).value))
  }

  /** The names looked up: the selection, or all of `DESCRIPTORS` when none is given. */
  function Requested(requested: Option<seq<string>>): seq<string> {
    if requested.None? then Descriptors else requested.value
  }

  /** `get_mof_descriptors`: the requested names looked up one after the other; the first
      lookup that fails (an unknown name, or a property that raises) ends the call with
      its error. */
  function GetMofDescriptors<V, E>(requested: Option<seq<string>>, attr: string -> Result<V, E>): (r: Result<seq<(string, V)>, E>)
    ensures r.Failure? <==> exists i :: 0 <= i < |Requested(requested)| && attr(Requested(requested)[i]).Failure?
    ensures r.Failure? ==>
      (exists k :: 0 <= k < |Requested(requested)| && attr(Requested(requested)[k]) == Failure(r.error)
        && forall i :: 0 <= i < k ==> attr(Requested(requested)[i]).Success?)
    ensures r.Success? ==> Keys(r.value) == Dedup(Requested(requested))
    ensures r.Success? ==> forall i :: 0 <= i < |r.value| ==> attr(r.value[i].0) == Success(r.value[i].1)
  {
    var names := Requested(requested);
    var k := FirstFailing(names, attr);
    if k < |names| then Failure(attr(names[k]).error) else Success(Entries(names, attr))
  }

  /** Without a selection the keys are exactly `DESCRIPTORS`, in catalog order. */
  lemma DefaultDescriptorKeys<V, E>(attr: string -> Result<V, E>)
    requires forall i :: 0 <= i < |Descriptors| ==> attr(Descriptors[i]).Success?
    ensures GetMofDescriptors(None, attr).Success?
    ensures Keys(GetMofDescriptors(None, attr).value) == Descriptors
  {
    DescriptorCatalogDistinct();
  }

  lemma HasOmsNotDefault(k: nat)
    requires k < |Descriptors|
    ensures Descriptors[k] != "has_oms"
  {
    forall j | 0 <= j < |Descriptors| ensures Descriptors[j] != "has_oms" { }
  }

  lemma LookupFailureIsUnknownName(v: Verdicts, info: string -> Option<Value>, name: string)
    requires name != "has_oms"
    ensures Attribute(v, info, name).Failure? ==> Attribute(v, info, name) == Failure(NoSuchAttribute(name)) && info(name).None?
  {
  }

  /** `has_oms` is not in `DESCRIPTORS`, so the default mapping never raises `NoMetal`: it
      fails only on a catalogue name that is not an attribute. */
  lemma DefaultDescriptorsNeverRaise(v: Verdicts, info: string -> Option<Value>)
    ensures var r := GetMofDescriptors(None, (name: string) => Attribute(v, info, name));
            r.Failure? ==> r.error.NoSuchAttribute? && r.error.name in Descriptors && info(r.error.name).None?
  {
    var attr := (name: string) => Attribute(v, info, name);
    var r := GetMofDescriptors(None, attr);
    if r.Failure? {
      var k :| 0 <= k < |Descriptors| && attr(Descriptors[k]) == Failure(r.error);
      HasOmsNotDefault(k);
      LookupFailureIsUnknownName(v, info, Descriptors[k]);
    }
  }

  /** A selection of distinct known names gives exactly those keys, in request order. */
  lemma SelectedDescriptorKeys<V, E>(names: seq<string>, attr: string -> Result<V, E>)
    requires NoDuplicates(names)
    requires forall i :: 0 <= i < |names| ==> attr(names[i]).Success?
    ensures GetMofDescriptors(Some(names), attr).Success?
    ensures Keys(GetMofDescriptors(Some(names), attr).value) == names
  {
  }
}
