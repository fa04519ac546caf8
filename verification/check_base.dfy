/** The memoised result slots of the three check base classes. A check computes its
    verdict with `_run_check` on first access and then serves the stored value. Every slot
    counts how often its getter ran; `run(k)` stands for what `_run_check` would return
    on its k-th call, so that nothing assumes two calls would agree. */
module CheckBase {
  import opened Wrappers

  /** A `cached_property` slot and the number of times its getter has computed a value. */
  datatype Cell<T> = Cell(cached: Option<T>, runs: nat)

  function FreshCell<T>(): Cell<T> {
    Cell(None, 0)
  }

  /** Reading a slot: the stored value if there is one, otherwise the getter's next result,
      which is then stored. */
  function Read<T>(c: Cell<T>, run: nat -> T): (r: (Cell<T>, T))
    ensures r.0.cached == Some(r.1)
    ensures c.cached.Some? ==> r == (c, c.cached.value)
    ensures c.cached.None? ==> r.0.runs == c.runs + 1 && r.1 == run(c.runs)
  {
    match c.cached
    case Some(v) => (c, v)
    case None =>
      var v := run(c.runs);
      (Cell(Some(v), c.runs + 1), v)
  }

  /** `n` successive reads of a plain check's `is_ok`. */
  function ReadMany<T>(c: Cell<T>, run: nat -> T, n: nat): (r: (Cell<T>, seq<T>))
    ensures |r.1| == n
    ensures r.0.runs <= c.runs + 1
    ensures c.cached.Some? ==> r.0.runs == c.runs
    ensures n > 0 ==> r.0.cached.Some?
    decreases n
  {
    if n == 0 then (c, [])
    else
      var (c1, v) := Read(c, run);
      var (c2, vs) := ReadMany(c1, run, n - 1);
      (c2, [v] + vs)
  }

  lemma {:induction false} FilledCellIsStable<T>(v: T, m: nat, run: nat -> T, n: nat)
    ensures ReadMany(Cell(Some(v), m), run, n).0 == Cell(Some(v), m)
    ensures forall k :: 0 <= k < n ==> ReadMany(Cell(Some(v), m), run, n).1[k] == v
    decreases n
  {
    if n > 0 {
      FilledCellIsStable(v, m, run, n - 1);
    }
  }

  /** `AbstractCheck.is_ok`: `_run_check` runs once, and every read returns the value of
      that one run, whatever it is (also `None`). */
  lemma IsOkRunsOnce<T>(run: nat -> T, n: nat)
    requires n > 0
    ensures ReadMany(FreshCell(), run, n).0.runs == 1
    ensures forall k :: 0 <= k < n ==> ReadMany(FreshCell(), run, n).1[k] == run(0)
  {
    FilledCellIsStable(run(0), 1, run, n - 1);
  }

  /** What an index check's `_run_check` returns: the flagged indices and a verdict that
      holds exactly when nothing is flagged. */
  datatype IndexOutcome = IndexOutcome(ok: bool, indices: seq<nat>)

  function Outcome(indices: seq<nat>): (r: IndexOutcome)
    ensures r.indices == indices && (r.ok <==> |indices| == 0)
  {
    IndexOutcome(|indices| == 0, indices)
  }

  /** What a missing-atom check's `_run_check` returns: verdict, flagged indices and one
      candidate-position entry per flagged index. */
  datatype MissingOutcome<P> = MissingOutcome(ok: bool, indices: seq<nat>, positions: seq<P>)

  // ---------------------------------------------------------------------------------
  // AbstractIndexCheck: one cached (result, indices) pair and two cached projections

  datatype IndexAccessor = IsOkAndIndices | IsOk | FlaggedIndices

  datatype IndexView<R> = PairView(ok: R, indices: seq<nat>) | OkView(ok: R) | IndicesView(indices: seq<nat>)

  datatype IndexCheck<R> = IndexCheck(pair: Cell<(R, seq<nat>)>, isOk: Cell<R>, flagged: Cell<seq<nat>>)

  function FreshIndexCheck<R>(): IndexCheck<R> {
    IndexCheck(FreshCell(), FreshCell(), FreshCell())
  }

  /** What an accessor shows when the pair is `v`. */
  function ProjectIndex<R>(a: IndexAccessor, v: (R, seq<nat>)): IndexView<R> {
    match a
    case IsOkAndIndices => PairView(v.0, v.1)
    case IsOk => OkView(v.0)
    case FlaggedIndices => IndicesView(v.1)
  }

  /** Whether accessor `a` has to consult the pair: always for the pair itself, and for
      `is_ok` and `flagged_indices` only while their own slot is empty. */
  predicate ConsultsPair<R>(st: IndexCheck<R>, a: IndexAccessor) {
    match a
    case IsOkAndIndices => true
    case IsOk => st.isOk.cached.None?
    case FlaggedIndices => st.flagged.cached.None?
  }

  /** One property access. `is_ok` and `flagged_indices` only consult the pair when their
      own slot is still empty. */
  function ReadIndex<R>(st: IndexCheck<R>, a: IndexAccessor, run: nat -> (R, seq<nat>)): (r: (IndexCheck<R>, IndexView<R>))
    ensures r.0.pair.cached.Some? || st.pair.cached.None?
    ensures st.pair.cached.Some? ==> r.0.pair == st.pair
    ensures ConsultsPair(st, a) ==> r.0.pair.cached.Some? && r.1 == ProjectIndex(a, r.0.pair.cached.value)
    ensures ConsultsPair(st, a) && st.pair.cached.Some? ==> r.1 == ProjectIndex(a, st.pair.cached.value)
    ensures ConsultsPair(st, a) && st.pair.cached.None? ==> r.1 == ProjectIndex(a, run(st.pair.runs))
    ensures a == IsOk && st.isOk.cached.Some? ==> r == (st, OkView(st.isOk.cached.value))
    ensures a == FlaggedIndices && st.flagged.cached.Some? ==> r == (st, IndicesView(st.flagged.cached.value))
    ensures a == IsOk && st.isOk.cached.None? ==> r.0.isOk.cached == Some(r.1.ok) && r.0.flagged == st.flagged
    ensures a == FlaggedIndices && st.flagged.cached.None? ==> r.0.flagged.cached == Some(r.1.indices) && r.0.isOk == st.isOk
  {
    match a
    case IsOkAndIndices =>
      var (p, v) := Read(st.pair, run);
      (st.(pair := p), PairView(v.0, v.1))
    case IsOk =>
      (match st.isOk.cached
       case Some(b) => (st, OkView(b))
       case None =>
         var (p, v) := Read(st.pair, run);
         (IndexCheck(p, Cell(Some(v.0), st.isOk.runs + 1), st.flagged), OkView(v.0)))
    case FlaggedIndices =>
      (match st.flagged.cached
       case Some(ix) => (st, IndicesView(ix))
       case None =>
         var (p, v) := Read(st.pair, run);
         (IndexCheck(p, st.isOk, Cell(Some(v.1), st.flagged.runs + 1)), IndicesView(v.1)))
  }

  function IndexSession<R>(st: IndexCheck<R>, accesses: seq<IndexAccessor>, run: nat -> (R, seq<nat>)): (r: (IndexCheck<R>, seq<IndexView<R>>))
    ensures |r.1| == |accesses|
    decreases |accesses|
  {
    if |accesses| == 0 then (st, [])
    else
      var (st1, v) := ReadIndex(st, accesses[0], run);
      var (st2, vs) := IndexSession(st1, accesses[1..], run);
      (st2, [v] + vs)
  }

  /** The pair slot holds `v`, `_run_check` ran once, and the projection slots agree with `v`. */
  ghost predicate IndexSettled<R>(st: IndexCheck<R>, v: (R, seq<nat>)) {
    st.pair == Cell(Some(v), 1)
    && (st.isOk.cached.Some? ==> st.isOk.cached.value == v.0)
    && (st.flagged.cached.Some? ==> st.flagged.cached.value == v.1)
  }

  lemma {:induction false} SettledIndexSession<R>(st: IndexCheck<R>, v: (R, seq<nat>), accesses: seq<IndexAccessor>, run: nat -> (R, seq<nat>))
    requires IndexSettled(st, v)
    ensures IndexSettled(IndexSession(st, accesses, run).0, v)
    ensures forall k :: 0 <= k < |accesses| ==> IndexSession(st, accesses, run).1[k] == ProjectIndex(accesses[k], v)
    decreases |accesses|
  {
    if |accesses| > 0 {
      var (st1, w) := ReadIndex(st, accesses[0], run);
      assert IndexSettled(st1, v) && w == ProjectIndex(accesses[0], v);
      SettledIndexSession(st1, v, accesses[1..], run);
    }
  }

  /** Whichever accessor comes first, `_run_check` runs exactly once, and `is_ok`,
      `flagged_indices` and `is_ok_and_indices` all show projections of that one result. */
  lemma IndexCheckRunsOnce<R>(accesses: seq<IndexAccessor>, run: nat -> (R, seq<nat>))
    requires |accesses| > 0
    ensures IndexSession(FreshIndexCheck(), accesses, run).0.pair.runs == 1
    ensures forall k :: 0 <= k < |accesses| ==>
              IndexSession(FreshIndexCheck(), accesses, run).1[k] == ProjectIndex(accesses[k], run(0))
  {
    var st0: IndexCheck<R> := FreshIndexCheck();
    var (st1, w) := ReadIndex(st0, accesses[0], run);
    assert IndexSettled(st1, run(0)) && w == ProjectIndex(accesses[0], run(0));
    SettledIndexSession(st1, run(0), accesses[1..], run);
  }

  // ---------------------------------------------------------------------------------
  // AbstractMissingCheck: one cached (result, indices, positions) triple, plain projections

  datatype MissingAccessor = IsOkIndicesPositions | MissingIsOk | MissingFlaggedIndices | CandidatePositions

  datatype MissingView<R, P> =
    | TripleView(ok: R, indices: seq<nat>, positions: seq<P>)
    | MissingOkView(ok: R)
    | MissingIndicesView(indices: seq<nat>)
    | PositionsView(positions: seq<P>)

  function ProjectMissing<R, P>(a: MissingAccessor, v: (R, seq<nat>, seq<P>)): MissingView<R, P> {
    match a
    case IsOkIndicesPositions => TripleView(v.0, v.1, v.2)
    case MissingIsOk => MissingOkView(v.0)
    case MissingFlaggedIndices => MissingIndicesView(v.1)
    case CandidatePositions => PositionsView(v.2)
  }

  function MissingSession<R, P>(c: Cell<(R, seq<nat>, seq<P>)>, accesses: seq<MissingAccessor>, run: nat -> (R, seq<nat>, seq<P>)): (r: (Cell<(R, seq<nat>, seq<P>)>, seq<MissingView<R, P>>))
    ensures |r.1| == |accesses|
    decreases |accesses|
  {
    if |accesses| == 0 then (c, [])
    else
      var (c1, v) := Read(c, run);
      var (c2, vs) := MissingSession(c1, accesses[1..], run);
      (c2, [ProjectMissing(accesses[0], v)] + vs)
  }

  lemma {:induction false} SettledMissingSession<R, P>(v: (R, seq<nat>, seq<P>), accesses: seq<MissingAccessor>, run: nat -> (R, seq<nat>, seq<P>))
    ensures MissingSession(Cell(Some(v), 1), accesses, run).0 == Cell(Some(v), 1)
    ensures forall k :: 0 <= k < |accesses| ==>
              MissingSession(Cell(Some(v), 1), accesses, run).1[k] == ProjectMissing(accesses[k], v)
    decreases |accesses|
  {
    if |accesses| > 0 {
      SettledMissingSession(v, accesses[1..], run);
    }
  }

  /** `is_ok`, `flagged_indices` and `candidate_positions` are views of one triple,
      computed by a single run of `_run_check`. */
  lemma MissingCheckRunsOnce<R, P>(accesses: seq<MissingAccessor>, run: nat -> (R, seq<nat>, seq<P>))
    requires |accesses| > 0
    ensures MissingSession(FreshCell(), accesses, run).0.runs == 1
    ensures forall k :: 0 <= k < |accesses| ==>
              MissingSession(FreshCell(), accesses, run).1[k] == ProjectMissing(accesses[k], run(0))
  {
    SettledMissingSession(run(0), accesses[1..], run);
  }
}
