/** What the staged commands of project/add jobs compute on a device. */
module ProjectAdd {
  import opened Basics
  import opened Costs
  import opened Kernels
  import opened GuestMemory
  import opened Commands
  import opened Codec
  import opened Semantics
  import opened Batches
  import opened GuestStaging
  import opened VectorRuns
  import opened Streams
  import opened StreamBatches
  import opened ProjectJobs

  /** Guest addresses of a staged job. */
  datatype Placed = Placed(rows: nat, columns: nat, length: nat, matrix: nat, unary: nat, temporary: nat, scores: nat) {
    predicate Fits() {
      && rows <= UINT64_MAX && columns <= UINT64_MAX && length <= UINT64_MAX && matrix <= UINT64_MAX
      && unary <= UINT64_MAX && temporary <= UINT64_MAX && scores <= UINT64_MAX
    }
  }

  function ProjectOf(q: Placed): Command
    requires q.Fits()
  {
    Project(MatrixView(q.matrix, q.rows, q.columns, q.columns, 1), VectorView(q.unary, q.length, 1),
            OutputView(q.temporary, q.rows, 1, false))
  }

  function AddOf(q: Placed): Command
    requires q.Fits()
  {
    AddVector(VectorView(q.temporary, q.rows, 1), VectorView(q.scores, q.rows, 1),
              OutputView(q.scores, q.rows, 1, false))
  }

  /** Both commands of a job are well formed. */
  predicate Built(q: Placed) { q.Fits() && Usable(ProjectOf(q)) && Usable(AddOf(q)) }

  // ------------------------------------------------------------- guest contents

  ghost predicate GuestHas(m: Memory, q: Placed, w: Work, t: Totals) {
    && q.rows == |w.rows| && q.columns == w.columns && q.length == |w.unary| && Rectangular(w.rows, w.columns)
    && HoldsRows(m, q.matrix, w.rows, w.columns) && Holds(m, q.unary, w.unary)
    && w.key in t && |t[w.key]| == q.rows && Holds(m, q.scores, t[w.key])
    && Storable(m, q.temporary, 4 * q.rows) && Storable(m, q.scores, 4 * q.rows)
  }

  ghost predicate GuestReady(m: Memory, qs: seq<Placed>, ws: seq<Work>, t: Totals) {
    |ws| == |qs| && forall j {:trigger qs[j]} :: 0 <= j < |qs| ==> GuestHas(m, qs[j], ws[j], t)
  }

  /** Outputs of one job leave the operands of another alone; scores are the same or apart. */
  ghost predicate PlacedApart2(a: Placed, key: nat, b: Placed, key': nat) {
    && Apart(a.temporary, 4 * a.rows, b.matrix, 4 * Offset(b.rows, b.columns))
    && Apart(a.temporary, 4 * a.rows, b.unary, 4 * b.length) && Apart(a.temporary, 4 * a.rows, b.scores, 4 * b.rows)
    && Apart(a.scores, 4 * a.rows, b.matrix, 4 * Offset(b.rows, b.columns))
    && Apart(a.scores, 4 * a.rows, b.unary, 4 * b.length)
    && (if key == key' then a.scores == b.scores && a.rows == b.rows
        else Apart(a.scores, 4 * a.rows, b.scores, 4 * b.rows))
  }

  ghost predicate PlacedApart(qs: seq<Placed>, ws: seq<Work>) {
    |qs| == |ws| && forall j, k {:trigger PlacedApart2(qs[j], ws[j].key, qs[k], ws[k].key)} ::
      0 <= j < |qs| && 0 <= k < |qs| ==> PlacedApart2(qs[j], ws[j].key, qs[k], ws[k].key)
  }

  // -------------------------------------------------------------- one job's steps

  lemma HasOutside(m: Memory, r: Memory, start: nat, size: nat, q: Placed, w: Work, t: Totals)
    requires GuestHas(m, q, w, t) && SameOutside(m, r, start, size)
    requires Apart(start, size, q.matrix, 4 * Offset(q.rows, q.columns)) && Apart(start, size, q.unary, 4 * q.length)
    ensures HoldsRows(r, q.matrix, w.rows, w.columns) && Holds(r, q.unary, w.unary)
    ensures Storable(r, q.temporary, 4 * q.rows) && Storable(r, q.scores, 4 * q.rows)
    ensures Apart(start, size, q.scores, 4 * q.rows) ==> Holds(r, q.scores, t[w.key])
  {
    HoldsRowsOutside(m, r, start, size, q.matrix, w.rows, w.columns);
    HoldsOutside(m, r, start, size, q.unary, w.unary);
    if Apart(start, size, q.scores, 4 * q.rows) {
      HoldsOutside(m, r, start, size, q.scores, t[w.key]);
    }
  }

  /** After the projection of job `i`, everything staged is still there. */
  lemma ProjectKeeps(m: Memory, r: Memory, qs: seq<Placed>, ws: seq<Work>, t: Totals, i: nat)
    requires GuestReady(m, qs, ws, t) && PlacedApart(qs, ws) && i < |qs|
    requires SameOutside(m, r, qs[i].temporary, 4 * qs[i].rows)
    ensures GuestReady(r, qs, ws, t)
  {
    forall j | 0 <= j < |qs| ensures GuestHas(r, qs[j], ws[j], t) {
      assert GuestHas(m, qs[j], ws[j], t);
      assert PlacedApart2(qs[i], ws[i].key, qs[j], ws[j].key);
      HasOutside(m, r, qs[i].temporary, 4 * qs[i].rows, qs[j], ws[j], t);
    }
  }

  /** After the addition of job `i`, its scores have moved on and the rest is still there. */
  lemma AddKeeps(m: Memory, r: Memory, qs: seq<Placed>, ws: seq<Work>, t: Totals, i: nat)
    requires GuestReady(m, qs, ws, t) && PlacedApart(qs, ws) && i < |qs| && Addable(ws[i], t)
    requires SameOutside(m, r, qs[i].scores, 4 * qs[i].rows) && Holds(r, qs[i].scores, Added(ws[i], t)[ws[i].key])
    ensures GuestReady(r, qs, ws, Added(ws[i], t))
  {
    assert GuestHas(m, qs[i], ws[i], t);
    forall j | 0 <= j < |qs| ensures GuestHas(r, qs[j], ws[j], Added(ws[i], t)) {
      assert GuestHas(m, qs[j], ws[j], t);
      assert PlacedApart2(qs[i], ws[i].key, qs[j], ws[j].key);
      HasOutside(m, r, qs[i].scores, 4 * qs[i].rows, qs[j], ws[j], t);
    }
  }

  lemma SumsCommute(a: seq<int>, b: seq<int>)
    requires |a| == |b|
    ensures Sums2(a, b) == Sums2(b, a) && (Accepted2(a, b) <==> Accepted2(b, a))
  {
    forall i | 0 <= i < |a|
      ensures AddChecked(a[i], b[i]) == AddChecked(b[i], a[i]) && Sums2(a, b)[i] == Sums2(b, a)[i]
    {
      AddCommutes(a[i], b[i]);
    }
    if Accepted2(a, b) {
      forall i | 0 <= i < |a| ensures AddChecked(b[i], a[i]).Sum? {
        assert AddChecked(a[i], b[i]).Sum?;
      }
    }
    if Accepted2(b, a) {
      forall i | 0 <= i < |a| ensures AddChecked(a[i], b[i]).Sum? {
        assert AddChecked(b[i], a[i]).Sum?;
      }
    }
  }

  /** A built job has columns and rows, and the device gets the addition with its sources swapped. */
  lemma BuiltShape(q: Placed)
    requires Built(q)
    ensures q.columns == q.length && q.rows > 0
    ensures Sent(ProjectOf(q)) == ProjectOf(q)
    ensures q.temporary != q.scores ==>
              Sent(AddOf(q)) == AddVector(VectorView(q.scores, q.rows, 1), VectorView(q.temporary, q.rows, 1),
                                          OutputView(q.scores, q.rows, 1, false))
  {
  }

  lemma ProjectStep(m: Memory, q: Placed, w: Work, t: Totals)
    requires Built(q) && GuestHas(m, q, w, t)
    ensures Outcome(Lower(Sent(ProjectOf(q))), m, AllRowsAccepted(w.rows, w.unary), RowMins(w.rows, w.unary))
    ensures Lower(Sent(ProjectOf(q))).base == q.temporary && Lower(Sent(ProjectOf(q))).rows == q.rows
  {
    BuiltShape(q);
    ProjectDoes(ProjectOf(q), m, w.rows, w.unary);
  }

  lemma AddStep(m: Memory, q: Placed, scores: seq<int>, minima: seq<int>)
    requires Built(q) && q.temporary != q.scores && |scores| == |minima| == q.rows
    requires Holds(m, q.scores, scores) && Holds(m, q.temporary, minima) && Storable(m, q.scores, 4 * q.rows)
    ensures Outcome(Lower(Sent(AddOf(q))), m, Accepted2(minima, scores), Sums2(minima, scores))
    ensures Lower(Sent(AddOf(q))).base == q.scores && Lower(Sent(AddOf(q))).rows == q.rows
  {
    BuiltShape(q);
    SumsCommute(minima, scores);
    AddDoes(Sent(AddOf(q)), m, scores, minima);
  }

  /** The memory after both commands of a job. */
  ghost function JobEffect(q: Placed, m: Memory): Option<Memory>
    requires Built(q)
  {
    match Spec(Lower(Sent(ProjectOf(q))), m)
    case None => None
    case Some(r) => Spec(Lower(Sent(AddOf(q))), r)
  }

  /** The two commands of a job succeed exactly when its additions are accepted, and then add its
      projection to its scores. */
  lemma JobRuns(m: Memory, qs: seq<Placed>, ws: seq<Work>, t: Totals, i: nat)
    requires GuestReady(m, qs, ws, t) && PlacedApart(qs, ws) && i < |qs| && Built(qs[i])
    ensures JobEffect(qs[i], m).Some? <==> Addable(ws[i], t)
    ensures Addable(ws[i], t) ==> GuestReady(JobEffect(qs[i], m).value, qs, ws, Added(ws[i], t))
  {
    var q, w := qs[i], ws[i];
    assert GuestHas(m, q, w, t);
    assert PlacedApart2(q, w.key, q, w.key);
    BuiltShape(q);
    ProjectStep(m, q, w, t);
    if AllRowsAccepted(w.rows, w.unary) {
      var r := Spec(Lower(Sent(ProjectOf(q))), m).value;
      ProjectKeeps(m, r, qs, ws, t, i);
      assert GuestHas(r, q, w, t);
      AddStep(r, q, t[w.key], RowMins(w.rows, w.unary));
      if Addable(w, t) {
        AddKeeps(r, JobEffect(q, m).value, qs, ws, t, i);
      }
    }
  }

  // --------------------------------------------------------------- whole batches

  ghost predicate AllBuilt(qs: seq<Placed>) { forall j {:trigger qs[j]} :: 0 <= j < |qs| ==> Built(qs[j]) }

  /** The commands of all jobs, projection before addition. */
  function CommandsOf(qs: seq<Placed>): (cs: seq<Command>)
    requires AllBuilt(qs)
    ensures |cs| == 2 * |qs|
  {
    seq(2 * |qs|, i requires 0 <= i < 2 * |qs| =>
      assert Built(qs[i / 2]);
      if i % 2 == 0 then ProjectOf(qs[i / 2]) else AddOf(qs[i / 2]))
  }

  lemma CommandsAt(qs: seq<Placed>, j: nat)
    requires AllBuilt(qs) && j < |qs|
    ensures Built(qs[j]) && CommandsOf(qs)[2 * j] == ProjectOf(qs[j]) && CommandsOf(qs)[2 * j + 1] == AddOf(qs[j])
  {
    assert (2 * j) / 2 == j && (2 * j + 1) / 2 == j;
  }

  /** `does` pairs up the effects: those of `2 j` and `2 j + 1` one after the other. */
  ghost predicate Pairs(effect: Effect, does: Effect, count: nat) {
    forall m, j: nat {:trigger Visited(m, j)} :: Visited(m, j) && j < count ==>
      does(m, j) == match effect(m, 2 * j) case None => None case Some(r) => effect(r, 2 * j + 1)
  }

  lemma PairStep(effect: Effect, does: Effect, place: Place, count: nat, m: Memory, j: nat)
    requires Pairs(effect, does, count) && j < count
    ensures does(m, j).Some? ==> RunEffects(effect, place, 2 * count, m, 2 * j)
                                 == RunEffects(effect, place, 2 * count, does(m, j).value, 2 * (j + 1))
    ensures does(m, j).None? ==> RunEffects(effect, place, 2 * count, m, 2 * j).Stopped?
  {
    assert Visited(m, j);
    var first := effect(m, 2 * j);
    if first.Some? {
      var second := effect(first.value, 2 * j + 1);
      assert RunEffects(effect, place, 2 * count, m, 2 * j)
          == RunEffects(effect, place, 2 * count, first.value, 2 * j + 1);
    }
  }

  type Ready = (Memory, Totals) -> bool

  ghost predicate Reached(m: Memory, t: Totals, j: nat) { true }

  /** While `ready`, job `j` succeeds exactly when it is addable, and stays ready for the next. */
  ghost predicate Computes(does: Effect, ready: Ready, ws: seq<Work>) {
    forall m, t, j: nat {:trigger Reached(m, t, j)} :: Reached(m, t, j) && j < |ws| && ready(m, t) ==>
      && (does(m, j).Some? <==> Addable(ws[j], t))
      && (Addable(ws[j], t) ==> does(m, j).Some? && ready(does(m, j).value, Added(ws[j], t)))
  }

  /** The outcome of a run from job `i` on. */
  ghost predicate Folds(run: Run, final: Option<Totals>, end: nat, ready: Ready) {
    && (run.Finished? <==> final.Some?)
    && (final.Some? ==> run.Finished? && run.cursor == end && ready(run.memory, final.value))
  }

  /** The commands of all jobs compute the fold of the jobs, or stop when it is refused. */
  lemma {:induction false} PairsFold(effect: Effect, does: Effect, ready: Ready, ws: seq<Work>, place: Place,
                                     m: Memory, t: Totals, j: nat)
    requires Pairs(effect, does, |ws|) && Computes(does, ready, ws) && ready(m, t) && j <= |ws|
    ensures Folds(RunEffects(effect, place, 2 * |ws|, m, 2 * j), FoldJobs(ws, t, j), place(2 * |ws|), ready)
    decreases |ws| - j
  {
    if j < |ws| {
      assert Reached(m, t, j);
      PairStep(effect, does, place, |ws|, m, j);
      if Addable(ws[j], t) {
        PairsFold(effect, does, ready, ws, place, does(m, j).value, Added(ws[j], t), j + 1);
      }
    }
  }

  ghost function DoesOf(qs: seq<Placed>): Effect {
    (m: Memory, j: nat) => if j < |qs| && Built(qs[j]) then JobEffect(qs[j], m) else None
  }

  ghost function ReadyOf(qs: seq<Placed>, ws: seq<Work>): Ready { (m: Memory, t: Totals) => GuestReady(m, qs, ws, t) }

  lemma JobsCompute(qs: seq<Placed>, ws: seq<Work>)
    requires AllBuilt(qs) && PlacedApart(qs, ws)
    ensures Computes(DoesOf(qs), ReadyOf(qs, ws), ws)
  {
    var does, ready := DoesOf(qs), ReadyOf(qs, ws);
    forall m, t, j: nat {:trigger Reached(m, t, j)} | Reached(m, t, j) && j < |ws| && ready(m, t)
      ensures does(m, j).Some? <==> Addable(ws[j], t)
      ensures Addable(ws[j], t) ==> does(m, j).Some? && ready(does(m, j).value, Added(ws[j], t))
    {
      assert Built(qs[j]);
      JobRuns(m, qs, ws, t, j);
    }
  }

  lemma PrimitiveCommands(qs: seq<Placed>)
    requires AllBuilt(qs)
    ensures Primitives(CommandsOf(qs))
  {
    var cs := CommandsOf(qs);
    forall i | 0 <= i < |cs| ensures Usable(cs[i]) {
      assert Built(qs[i / 2]);
    }
  }

  lemma DoesIs(qs: seq<Placed>, j: nat, m: Memory)
    requires j < |qs| && Built(qs[j])
    ensures DoesOf(qs)(m, j) == JobEffect(qs[j], m)
  {
  }

  lemma PairAt(qs: seq<Placed>, j: nat, m: Memory)
    requires AllBuilt(qs) && j < |qs|
    ensures var effect := EffectOf(CommandsOf(qs));
            DoesOf(qs)(m, j) == match effect(m, 2 * j) case None => None case Some(r) => effect(r, 2 * j + 1)
  {
    var cs := CommandsOf(qs);
    PrimitiveCommands(qs);
    CommandsAt(qs, j);
    DoesIs(qs, j, m);
    EffectIs(cs, 2 * j, m);
    if EffectOf(cs)(m, 2 * j).Some? {
      EffectIs(cs, 2 * j + 1, EffectOf(cs)(m, 2 * j).value);
    }
  }

  lemma CommandsPair(qs: seq<Placed>)
    requires AllBuilt(qs)
    ensures Pairs(EffectOf(CommandsOf(qs)), DoesOf(qs), |qs|)
  {
    var effect, does := EffectOf(CommandsOf(qs)), DoesOf(qs);
    forall m, j: nat {:trigger Visited(m, j)} | Visited(m, j) && j < |qs|
      ensures does(m, j) == match effect(m, 2 * j) case None => None case Some(r) => effect(r, 2 * j + 1)
    {
      PairAt(qs, j, m);
    }
  }

  /** A batch made of the commands of staged jobs finishes exactly when no addition of the jobs, in
      order, is refused, and then every score block holds its total. */
  lemma BatchFolds(m: Memory, g: Guard, qs: seq<Placed>, ws: seq<Work>, t: Totals)
    requires AllBuilt(qs) && PlacedApart(qs, ws) && GuestReady(m, qs, ws, t)
    requires InStream(m, g, CommandsOf(qs))
    requires Primitives(CommandsOf(qs)) && AllMiss(CommandsOf(qs), g)
    ensures Folds(Children(m, g.stream, g, 2 * |qs|), FoldJobs(ws, t, 0), g.end, ReadyOf(qs, ws))
  {
    var cs := CommandsOf(qs);
    BatchRunsCommands(m, g, cs);
    CommandsPair(qs);
    JobsCompute(qs, ws);
    PairsFold(EffectOf(cs), DoesOf(qs), ReadyOf(qs, ws), ws, PlaceOf(g, cs), m, t, 0);
  }
}
