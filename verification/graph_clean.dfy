/** The simple labelled graph handed to graph hashing, and the choice of the
    neighbour-finding strategy the structure graph is built with. */
module Graph {
  import opened Wrappers
  import opened Crystal

  // ---------------------------------------------------------------------------------
  // `construct_clean_graph`

  /** One edge of the structure graph's multigraph: a bond from site `source` to the
      periodic image `image` of site `target` (several edges may join the same sites). */
  datatype GraphEdge = GraphEdge(source: nat, target: nat, image: Image)

  /** An undirected edge, stored with its smaller end first. */
  datatype Bond = Bond(lo: nat, hi: nat)

  function BondOf(u: nat, v: nat): (b: Bond)
    ensures b.lo <= b.hi
    ensures {b.lo, b.hi} == {u, v}
  {
    if u <= v then Bond(u, v) else Bond(v, u)
  }

  /** A simple undirected graph whose nodes carry a species label. */
  datatype LabelledGraph = LabelledGraph(nodes: set<nat>, edges: set<Bond>, labels: map<nat, Element>)

  /** Some multigraph edge joins `u` and `v`, in either direction and in any image. */
  predicate Joins(edges: seq<GraphEdge>, u: nat, v: nat) {
    exists e :: e in edges && ((e.source == u && e.target == v) || (e.source == v && e.target == u))
  }

  /** Some multigraph edge has `n` as an end. */
  predicate Touches(edges: seq<GraphEdge>, n: nat) {
    exists e :: e in edges && (e.source == n || e.target == n)
  }

  predicate EndsInStructure(species: seq<Element>, edges: seq<GraphEdge>) {
    forall e :: e in edges ==> e.source < |species| && e.target < |species|
  }

  /** The undirected pairs the multigraph joins. */
  function BondsOf(edges: seq<GraphEdge>): (bonds: set<Bond>)
    ensures forall u: nat, v: nat :: BondOf(u, v) in bonds <==> Joins(edges, u, v)
    ensures forall b :: b in bonds ==> b.lo <= b.hi && Touches(edges, b.lo) && Touches(edges, b.hi)
  {
    var bonds := set e | e in edges :: BondOf(e.source, e.target);
    forall u: nat, v: nat | BondOf(u, v) in bonds ensures Joins(edges, u, v) {
      var e :| e in edges && BondOf(e.source, e.target) == BondOf(u, v);
      assert {e.source, e.target} == {u, v};
      assert e.source == u || e.source == v;
    }
    forall u: nat, v: nat | Joins(edges, u, v) ensures BondOf(u, v) in bonds {
      var e :| e in edges && ((e.source == u && e.target == v) || (e.source == v && e.target == u));
      assert BondOf(e.source, e.target) == BondOf(u, v);
    }
    forall b | b in bonds ensures Touches(edges, b.lo) && Touches(edges, b.hi) {
      var e :| e in edges && BondOf(e.source, e.target) == b;
      assert {b.lo, b.hi} == {e.source, e.target};
      assert b.lo == e.source || b.lo == e.target;
      assert b.hi == e.source || b.hi == e.target;
    }
    bonds
  }

  /** The sites at an end of some edge. */
  function EndsOf(edges: seq<GraphEdge>): (nodes: set<nat>)
    ensures forall n: nat :: n in nodes <==> Touches(edges, n)
  {
    (set e | e in edges :: e.source) + (set e | e in edges :: e.target)
  }

  /** Keeps one undirected edge per pair of joined sites, whatever the image, the edge key
      or the direction; the nodes are the sites with at least one edge, labelled with
      their species. */
  function ConstructCleanGraph(species: seq<Element>, edges: seq<GraphEdge>): (g: LabelledGraph)
    requires EndsInStructure(species, edges)
    ensures forall u: nat, v: nat :: BondOf(u, v) in g.edges <==> Joins(edges, u, v)
    ensures forall b :: b in g.edges ==> b.lo <= b.hi && b.lo in g.nodes && b.hi in g.nodes
    ensures forall n: nat :: n in g.nodes <==> Touches(edges, n)
    ensures g.labels.Keys == g.nodes
    ensures forall n :: n in g.nodes ==> n < |species| && g.labels[n] == species[n]
  {
    var nodes := EndsOf(edges);
    assert forall n :: n in nodes ==> n < |species|;
    LabelledGraph(nodes, BondsOf(edges), map n | n in nodes :: species[n])
  }

  /** A site is an end of some edge exactly when it is joined to some site. */
  lemma TouchesIffJoined(edges: seq<GraphEdge>, n: nat)
    ensures Touches(edges, n) <==> exists m: nat :: Joins(edges, n, m)
  {
    if Touches(edges, n) {
      var e :| e in edges && (e.source == n || e.target == n);
      if e.source == n {
        assert Joins(edges, n, e.target);
      } else {
        assert Joins(edges, n, e.source);
      }
    }
  }

  /** Two multigraphs that join the same pairs of sites have the same clean graph: the
      direction, periodic image, multiplicity and order of their edges are forgotten. */
  lemma CleanGraphForgetsDirectionAndImages(species: seq<Element>, a: seq<GraphEdge>, b: seq<GraphEdge>)
    requires EndsInStructure(species, a) && EndsInStructure(species, b)
    requires forall u: nat, v: nat :: Joins(a, u, v) <==> Joins(b, u, v)
    ensures ConstructCleanGraph(species, a) == ConstructCleanGraph(species, b)
  {
    var ga := ConstructCleanGraph(species, a);
    var gb := ConstructCleanGraph(species, b);
    forall n: nat ensures Touches(a, n) <==> Touches(b, n) {
      TouchesIffJoined(a, n);
      TouchesIffJoined(b, n);
    }
    assert ga.nodes == gb.nodes;
    forall x | x in ga.edges ensures x in gb.edges {
      assert BondOf(x.lo, x.hi) == x;
    }
    forall x | x in gb.edges ensures x in ga.edges {
      assert BondOf(x.lo, x.hi) == x;
    }
    assert ga.edges == gb.edges;
    assert ga.labels == gb.labels;
  }

  /** `_get_cn` of the graph helpers: the length of the connected-site list. */
  function GraphCn(s: Structure, i: nat): (n: nat)
    ensures n == |ConnectedSites(s, i)|
    ensures WellFormed(s) && i < Size(s) ==> n == |s.neighbors[i]|
  {
    Cn(s, i)
  }

  // ---------------------------------------------------------------------------------
  // `get_local_env_method`

  /** The neighbour-finding strategies on offer. `VestaPreset` is the one cut-off table
      built once at import time and handed out on every request; every other choice
      builds a fresh strategy object. */
  datatype Strategy =
    | CrystalNN(porousAdjustment: bool)
    | EconNN
    | BrunnerNNRelative
    | MinimumDistanceNN
    | VestaPreset
    | VoronoiNN
    | JmolNN

  /** `str.lower` on the ASCII letters. */
  function LowerChar(c: char): (d: char)
    ensures 'A' <= c <= 'Z' ==> d as int == c as int + 32
    ensures !('A' <= c <= 'Z') ==> d == c
  {
    if 'A' <= c <= 'Z' then (c as int + 32) as char else c
  }

  function Lower(s: string): (r: string)
    ensures |r| == |s|
    ensures forall k :: 0 <= k < |s| ==> r[k] == LowerChar(s[k])
  {
    if |s| == 0 then [] else [LowerChar(s[0])] + Lower(s[1..])
  }

  lemma LowerIdempotent(s: string)
    ensures Lower(Lower(s)) == Lower(s)
  {
    assert forall k :: 0 <= k < |s| ==> LowerChar(LowerChar(s[k])) == LowerChar(s[k]);
  }

  /** The names `get_local_env_method` recognises. */
  const KnownMethods: set<string> :=
    {"crystalnn", "econnn", "brunnernn", "minimumdistance", "vesta", "voronoinn"}

  function GetLocalEnvMethod(name: string): (r: Strategy)
    ensures r == CrystalNN(true) <==> Lower(name) == "crystalnn"
    ensures r == EconNN <==> Lower(name) == "econnn"
    ensures r == BrunnerNNRelative <==> Lower(name) == "brunnernn"
    ensures r == MinimumDistanceNN <==> Lower(name) == "minimumdistance"
    ensures r == VestaPreset <==> Lower(name) == "vesta"
    ensures r == VoronoiNN <==> Lower(name) == "voronoinn"
    ensures r == JmolNN <==> Lower(name) !in KnownMethods
    ensures !r.CrystalNN? || r.porousAdjustment
  {
    var m := Lower(name);
    if m == "crystalnn" then CrystalNN(true)
    else if m == "econnn" then EconNN
    else if m == "brunnernn" then BrunnerNNRelative
    else if m == "minimumdistance" then MinimumDistanceNN
    else if m == "vesta" then VestaPreset
    else if m == "voronoinn" then VoronoiNN
    else JmolNN
  }

  /** Names that differ only in ASCII letter case select the same strategy. */
  lemma LocalEnvMethodIgnoresCase(a: string, b: string)
    requires Lower(a) == Lower(b)
    ensures GetLocalEnvMethod(a) == GetLocalEnvMethod(b)
  {
  }

  // ---------------------------------------------------------------------------------
  // Legacy `MOFChecker._set_cnn`

  /** The legacy checker's strategy fields: the lower-cased name last chosen (None
      before the first choice), the strategy and the porous-adjustment flag. */
  datatype CnnState = CnnState(chosen: Option<string>, cnn: Option<Strategy>, porousAdjustment: bool)

  /** The fields as the constructor leaves them before it chooses the default. */
  const UnsetCnn := CnnState(None, None, false)

  /** Selecting a name that is already current changes nothing, not even the flag;
      otherwise the name, the flag and the strategy are replaced. There is no
      Voronoi choice here: "voronoinn" falls back to JmolNN like any unknown name, and
      CrystalNN takes the flag passed in. */
  function SetCnn(st: CnnState, name: string, porousAdjustment: bool): (r: CnnState)
    ensures st.chosen == Some(Lower(name)) ==> r == st
    ensures st.chosen != Some(Lower(name)) ==>
      r.chosen == Some(Lower(name)) && r.porousAdjustment == porousAdjustment && r.cnn.Some?
    ensures r.chosen == Some(Lower(name))
    ensures st.chosen != Some(Lower(name)) ==>
      (r.cnn == Some(CrystalNN(porousAdjustment)) <==> Lower(name) == "crystalnn")
      && (r.cnn == Some(VestaPreset) <==> Lower(name) == "vesta")
      && (r.cnn == Some(JmolNN) <==> Lower(name) !in (KnownMethods - {"voronoinn"}))
      && (r.cnn.value == GetLocalEnvMethod(name) || Lower(name) in {"crystalnn", "voronoinn"})
  {
    var m := Lower(name);
    if st.chosen == Some(m) then st
    else
      var cnn :=
        if m == "crystalnn" then CrystalNN(porousAdjustment)
        else if m == "econnn" then EconNN
        else if m == "brunnernn" then BrunnerNNRelative
        else if m == "minimumdistance" then MinimumDistanceNN
        else if m == "vesta" then VestaPreset
        else JmolNN;
      CnnState(Some(m), Some(cnn), porousAdjustment)
  }

  /** The constructor's `_set_cnn()` call with its defaults selects the VESTA preset
      without porous adjustment. */
  lemma DefaultCnnIsVesta()
    ensures SetCnn(UnsetCnn, "vesta", false) == CnnState(Some("vesta"), Some(VestaPreset), false)
  {
  }

  /** Choosing the same name twice is the same as choosing it once. */
  lemma SetCnnIdempotent(st: CnnState, name: string, p: bool, q: bool)
    ensures SetCnn(SetCnn(st, name, p), name, q) == SetCnn(st, name, p)
  {
  }
}
