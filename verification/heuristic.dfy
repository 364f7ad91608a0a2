/** RN scoring (software/pbqp/pbqp.cpp: ReduceRN): a node of degree three or more is fixed to
    the value whose unary cost plus cheapest projections onto its neighbours is least. */
module Heuristic {
  import opened Costs
  import opened Graphs
  import opened Reductions
  import opened Kernels
  import opened Runs

  /** The entries of edge `e` for value `v` of `u` and every value of the other endpoint. */
  function Slice(e: Edge, u: nat, v: nat, n: nat): (slice: seq<int>)
    ensures |slice| == n
  {
    seq(n, o requires 0 <= o => CostAt(e, u, v, o))
  }

  /** The cheapest completion over edge `k` when `u` has value `v`. */
  function Projection(s: State, u: nat, v: nat, k: nat): int {
    if k < |s.edges| && Other(s.edges[k], u) < |s.nodes| then
      var unary := s.nodes[Other(s.edges[k], u)].unary;
      FirstMin(Sums2(Slice(s.edges[k], u, v, |unary|), unary)).value
    else 0
  }

  /** The score of value `v` after the first `k` edge slots. */
  function RnScore(s: State, u: nat, v: nat, k: nat): int
    requires u < |s.nodes| && v < |s.nodes[u].unary| && k <= |s.edges|
  {
    if k == 0 then s.nodes[u].unary[v]
    else if Touches(s.edges[k - 1], u)
    then Add(RnScore(s, u, v, k - 1), Projection(s, u, v, k - 1))
    else RnScore(s, u, v, k - 1)
  }

  function RnScores(s: State, u: nat, k: nat): (scores: seq<int>)
    requires u < |s.nodes| && k <= |s.edges|
    ensures |scores| == |s.nodes[u].unary|
    ensures forall v :: 0 <= v < |scores| ==> scores[v] == RnScore(s, u, v, k)
  {
    seq(|s.nodes[u].unary|, v requires 0 <= v < |s.nodes[u].unary| => RnScore(s, u, v, k))
  }

  function RnChoice(s: State, u: nat): nat
    requires u < |s.nodes|
  {
    FirstMin(RnScores(s, u, |s.edges|)).index
  }

  // ------------------------------------------------------------ range of scores

  /** The projection over one edge is exact and within that edge's and neighbour's budgets. */
  lemma ProjectionFits(s: State, w: Budget, u: nat, v: nat, k: nat)
    requires GraphOk(s) && Fits(s, w) && u < |s.nodes| && v < s.nodes[u].domain
    requires k < |s.edges| && Touches(s.edges[k], u)
    ensures var n := Other(s.edges[k], u);
            && n < |s.nodes| && n != u && s.nodes[n].active
            && Accepted2(Slice(s.edges[k], u, v, |s.nodes[n].unary|), s.nodes[n].unary)
            && Bounded(Projection(s, u, v, k), w.edge[k] + w.node[n])
  {
    assert EdgeOk(s, s.edges[k]) && MatrixFits(s, s.edges[k], w.edge[k]);
    var n := Other(s.edges[k], u);
    var unary := s.nodes[n].unary;
    var slice := Slice(s.edges[k], u, v, |unary|);
    assert UnaryFits(s.nodes[n], w.node[n]);
    TotalMember(w.node, n);
    TotalMember(w.edge, k);
    forall o | 0 <= o < |unary|
      ensures AddChecked(slice[o], unary[o]).Sum?
      ensures Bounded(Sums2(slice, unary)[o], w.edge[k] + w.node[n])
    {
      AddExact(slice[o], unary[o], w.edge[k], w.node[n]);
    }
    FirstMinBounded(Sums2(slice, unary), w.edge[k] + w.node[n]);
  }

  /** No edge among the first `k` leads from `u` to `n`. */
  ghost predicate Untaken(s: State, u: nat, k: nat, n: nat)
    requires k <= |s.edges|
  {
    forall j :: 0 <= j < k && Touches(s.edges[j], u) ==> Other(s.edges[j], u) != n
  }

  /** Budgets after scoring `u` over the first `k` slots: those of the edges and neighbours
      seen so far have moved to `u`. */
  ghost predicate Gathered(s: State, w: Budget, w': Budget, u: nat, k: nat)
    requires k <= |s.edges| && |w.node| == |s.nodes| && |w.edge| == |s.edges|
  {
    && |w'.node| == |w.node| && |w'.edge| == |w.edge| && Spent(w') == Spent(w)
    && (forall j :: k <= j < |w.edge| ==> w'.edge[j] == w.edge[j])
    && (forall n :: 0 <= n < |w.node| && n != u && Untaken(s, u, k, n) ==> w'.node[n] == w.node[n])
  }

  lemma NextUntaken(s: State, u: nat, k: nat)
    requires GraphOk(s) && k < |s.edges| && Touches(s.edges[k], u)
    ensures Untaken(s, u, k, Other(s.edges[k], u))
  {
    forall j | 0 <= j < k && Touches(s.edges[j], u) ensures Other(s.edges[j], u) != Other(s.edges[k], u) {
      assert Apart(s.edges[j], s.edges[k]);
    }
  }

  function GatherBudget(w: Budget, u: nat, n: nat, k: nat): (w': Budget)
    requires u < |w.node| && n < |w.node| && u != n && k < |w.edge|
    ensures Spent(w') == Spent(w)
  {
    var gain := w.node[u] + w.edge[k] + w.node[n];
    TotalUpdate(w.node, u, gain);
    TotalUpdate(w.node[u := gain], n, 0);
    TotalUpdate(w.edge, k, 0);
    w.(node := w.node[u := gain][n := 0], edge := w.edge[k := 0])
  }

  lemma GatherStep(s: State, w: Budget, before: Budget, u: nat, k: nat) returns (after: Budget)
    requires GraphOk(s) && Fits(s, w) && u < |s.nodes| && k < |s.edges|
    requires Gathered(s, w, before, u, k)
    ensures Gathered(s, w, after, u, k + 1)
    ensures var n := Other(s.edges[k], u);
            if Touches(s.edges[k], u)
            then n < |s.nodes| && after.node[u] == before.node[u] + w.edge[k] + w.node[n]
            else after == before
  {
    if Touches(s.edges[k], u) {
      assert EdgeOk(s, s.edges[k]);
      var n := Other(s.edges[k], u);
      NextUntaken(s, u, k);
      assert before.node[n] == w.node[n];
      after := GatherBudget(before, u, n, k);
      forall m | 0 <= m < |w.node| && m != u && Untaken(s, u, k + 1, m)
        ensures after.node[m] == w.node[m]
      {
        assert Untaken(s, u, k, m);
      }
    } else {
      after := before;
      forall m | 0 <= m < |w.node| && m != u && Untaken(s, u, k + 1, m)
        ensures after.node[m] == w.node[m]
      {
        assert Untaken(s, u, k, m);
      }
    }
  }

  lemma {:induction false} ScoreFits(s: State, w: Budget, u: nat, k: nat) returns (w': Budget)
    requires GraphOk(s) && Fits(s, w) && u < |s.nodes| && s.nodes[u].active && k <= |s.edges|
    ensures Gathered(s, w, w', u, k)
    ensures forall v :: 0 <= v < s.nodes[u].domain ==> Bounded(RnScore(s, u, v, k), w'.node[u])
    decreases k
  {
    if k == 0 {
      w' := w;
      assert UnaryFits(s.nodes[u], w.node[u]);
    } else {
      var before := ScoreFits(s, w, u, k - 1);
      w' := GatherStep(s, w, before, u, k - 1);
      TotalMember(w'.node, u);
      forall v | 0 <= v < s.nodes[u].domain ensures Bounded(RnScore(s, u, v, k), w'.node[u]) {
        if Touches(s.edges[k - 1], u) {
          ProjectionFits(s, w, u, v, k - 1);
          AddExact(RnScore(s, u, v, k - 1), Projection(s, u, v, k - 1), before.node[u],
                   w.edge[k - 1] + w.node[Other(s.edges[k - 1], u)]);
        }
      }
    }
  }

  /** On an in-range graph no projection and no accumulation of a score is refused, and each
      accumulation is exact. */
  lemma ScoreAccepted(s: State, u: nat, v: nat, k: nat)
    requires Good(s) && u < |s.nodes| && s.nodes[u].active && v < s.nodes[u].domain
    requires k < |s.edges| && Touches(s.edges[k], u)
    ensures var n := Other(s.edges[k], u);
            && n < |s.nodes|
            && Accepted2(Slice(s.edges[k], u, v, |s.nodes[n].unary|), s.nodes[n].unary)
    ensures var score, p := RnScore(s, u, v, k), Projection(s, u, v, k);
            && AddChecked(p, score) == Sum(Add(score, p))
            && ToExt(Add(score, p)) == Plus(ToExt(score), ToExt(p))
  {
    var w :| Fits(s, w);
    ProjectionFits(s, w, u, v, k);
    var before := ScoreFits(s, w, u, k);
    var after := GatherStep(s, w, before, u, k);
    TotalMember(after.node, u);
    AddExact(RnScore(s, u, v, k), Projection(s, u, v, k), before.node[u],
             w.edge[k] + w.node[Other(s.edges[k], u)]);
    AddCommutes(RnScore(s, u, v, k), Projection(s, u, v, k));
  }

  // ------------------------------------------------------------------- scoring

  /** One job per value of `u`, over edge `k`. */
  function EdgeJobs(s: State, u: nat, k: nat, values: nat): (jobs: seq<Job2>)
    requires k < |s.edges| && Other(s.edges[k], u) < |s.nodes|
    ensures |jobs| == values
    ensures forall v: nat :: v < values ==> jobs[v] == EdgeJob(s, u, k, v)
  {
    seq(values, v requires 0 <= v => EdgeJob(s, u, k, v))
  }

  function EdgeJob(s: State, u: nat, k: nat, v: nat): (job: Job2)
    requires k < |s.edges| && Other(s.edges[k], u) < |s.nodes|
    ensures job.Aligned() && job.Minimum() == Projection(s, u, v, k)
  {
    var unary := s.nodes[Other(s.edges[k], u)].unary;
    Job2(Slice(s.edges[k], u, v, |unary|), unary)
  }

  /** Every edge of `u` leads to an existing node. */
  ghost predicate Linked(s: State, u: nat) {
    forall k :: 0 <= k < |s.edges| && Touches(s.edges[k], u) ==> Other(s.edges[k], u) < |s.nodes|
  }

  /** The jobs of the edges of `u` among the first `k` slots. */
  function NodeJobs(s: State, u: nat, k: nat): (jobs: seq<Job2>)
    requires Linked(s, u) && u < |s.nodes| && k <= |s.edges|
    ensures forall t :: 0 <= t < |jobs| ==> jobs[t].Aligned()
  {
    if k == 0 then []
    else if Touches(s.edges[k - 1], u)
    then NodeJobs(s, u, k - 1) + EdgeJobs(s, u, k - 1, |s.nodes[u].unary|)
    else NodeJobs(s, u, k - 1)
  }

  /** Scores plus the results of one edge. */
  method Accumulate(scores: seq<int>, results: seq<int>) returns (sums: seq<int>)
    requires |scores| == |results|
    ensures sums == Sums2(scores, results)
  {
    sums := scores;
    for v := 0 to |results|
      invariant |sums| == |scores|
      invariant forall i :: 0 <= i < |scores| ==>
                  sums[i] == if i < v then Add(scores[i], results[i]) else scores[i]
    {
      sums := sums[v := Add(sums[v], results[v])];
    }
  }

  lemma ScoresStep(s: State, u: nat, k: nat, results: seq<int>)
    requires u < |s.nodes| && k < |s.edges| && Touches(s.edges[k], u)
    requires |results| == |s.nodes[u].unary|
    requires forall v: nat :: v < |results| ==> results[v] == Projection(s, u, v, k)
    ensures RnScores(s, u, k + 1) == Sums2(RnScores(s, u, k), results)
    ensures RnScores(s, u, k + 1) == Sums2(results, RnScores(s, u, k))
  {
    forall v: nat | v < |results|
      ensures RnScore(s, u, v, k + 1) == Add(RnScore(s, u, v, k), results[v])
      ensures RnScore(s, u, v, k + 1) == Add(results[v], RnScore(s, u, v, k))
    {
      AddCommutes(RnScore(s, u, v, k), results[v]);
    }
  }

  lemma ScoresStay(s: State, u: nat, k: nat)
    requires u < |s.nodes| && k < |s.edges| && !Touches(s.edges[k], u)
    ensures RnScores(s, u, k + 1) == RnScores(s, u, k)
  {
  }

  /** No projection over edge `k` is refused. */
  ghost predicate EdgeAccepted(s: State, u: nat, k: nat)
    requires u < |s.nodes| && k < |s.edges| && Other(s.edges[k], u) < |s.nodes|
  {
    forall v: nat :: v < |s.nodes[u].unary| ==> EdgeJob(s, u, k, v).Accepted()
  }

  ghost predicate StepAccepted(s: State, u: nat, k: nat)
    requires u < |s.nodes| && Linked(s, u) && k < |s.edges|
  {
    Touches(s.edges[k], u) ==> EdgeAccepted(s, u, k)
  }

  ghost predicate Accepts(s: State, u: nat, k: nat)
    requires u < |s.nodes| && Linked(s, u) && k <= |s.edges|
  {
    forall j {:trigger StepAccepted(s, u, j)} :: 0 <= j < k ==> StepAccepted(s, u, j)
  }

  /** Builds the jobs of one edge and runs them. */
  method ProjectEdge(s: State, u: nat, k: nat) returns (ok: bool, results: seq<int>)
    requires u < |s.nodes| && k < |s.edges| && Other(s.edges[k], u) < |s.nodes|
    ensures ok <==> EdgeAccepted(s, u, k)
    ensures ok ==> |results| == |s.nodes[u].unary|
    ensures ok ==> forall v: nat :: v < |results| ==> results[v] == Projection(s, u, v, k)
  {
    var jobs := EdgeJobs(s, u, k, |s.nodes[u].unary|);
    ok, results := Min2ValueBatch(jobs);
    if ok {
      forall v: nat | v < |jobs| ensures EdgeJob(s, u, k, v).Accepted() {
        assert jobs[v].Accepted();
      }
    }
  }

  /** Per-edge batching: one batch of jobs per edge. */
  method ScorePerEdge(s: State, u: nat) returns (ok: bool, scores: seq<int>)
    requires u < |s.nodes| && Linked(s, u)
    ensures ok <==> Accepts(s, u, |s.edges|)
    ensures ok ==> scores == RnScores(s, u, |s.edges|)
  {
    scores := s.nodes[u].unary;
    for k := 0 to |s.edges|
      invariant scores == RnScores(s, u, k)
      invariant Accepts(s, u, k)
    {
      ok, scores := ScoreEdge(s, u, k, scores);
      if !ok {
        return false, [];
      }
    }
    ok := true;
  }

  method ScoreEdge(s: State, u: nat, k: nat, before: seq<int>) returns (ok: bool, scores: seq<int>)
    requires u < |s.nodes| && Linked(s, u) && k < |s.edges| && before == RnScores(s, u, k)
    ensures ok <==> StepAccepted(s, u, k)
    ensures ok ==> scores == RnScores(s, u, k + 1)
  {
    scores := before;
    if !Touches(s.edges[k], u) {
      ScoresStay(s, u, k);
      return true, before;
    }
    var results;
    ok, results := ProjectEdge(s, u, k);
    if ok {
      ScoresStep(s, u, k, results);
      scores := Accumulate(before, results);
    }
  }

  lemma {:induction false} NodeJobsAccepted(s: State, u: nat, k: nat)
    requires u < |s.nodes| && Linked(s, u) && k <= |s.edges|
    ensures AllAccepted(NodeJobs(s, u, k)) <==> Accepts(s, u, k)
  {
    if k > 0 {
      NodeJobsAccepted(s, u, k - 1);
      NodeJobsStep(s, u, k - 1);
      assert Accepts(s, u, k) <==> Accepts(s, u, k - 1) && StepAccepted(s, u, k - 1);
    }
  }

  lemma NodeJobsStep(s: State, u: nat, k: nat)
    requires u < |s.nodes| && Linked(s, u) && k < |s.edges|
    ensures AllAccepted(NodeJobs(s, u, k + 1))
            <==> AllAccepted(NodeJobs(s, u, k)) && StepAccepted(s, u, k)
  {
    if Touches(s.edges[k], u) {
      EdgeJobsAccepted(s, u, k);
      AppendAccepted(NodeJobs(s, u, k), EdgeJobs(s, u, k, |s.nodes[u].unary|));
    }
  }

  ghost predicate AllAccepted(jobs: seq<Job2>) {
    forall t :: 0 <= t < |jobs| ==> jobs[t].Accepted()
  }

  lemma EdgeJobsAccepted(s: State, u: nat, k: nat)
    requires u < |s.nodes| && k < |s.edges| && Other(s.edges[k], u) < |s.nodes|
    ensures AllAccepted(EdgeJobs(s, u, k, |s.nodes[u].unary|)) <==> EdgeAccepted(s, u, k)
  {
    var jobs := EdgeJobs(s, u, k, |s.nodes[u].unary|);
    if AllAccepted(jobs) {
      forall v: nat | v < |jobs| ensures EdgeJob(s, u, k, v).Accepted() {
        assert jobs[v].Accepted();
      }
    }
  }

  lemma AppendAccepted(before: seq<Job2>, row: seq<Job2>)
    ensures AllAccepted(before + row) <==> AllAccepted(before) && AllAccepted(row)
  {
    var all := before + row;
    if AllAccepted(all) {
      forall t | 0 <= t < |before| ensures before[t].Accepted() {
        assert all[t].Accepted();
      }
      forall t | 0 <= t < |row| ensures row[t].Accepted() {
        assert all[|before| + t].Accepted();
      }
    }
  }

  /** The jobs up to slot `k` are a prefix of all jobs. */
  lemma {:induction false} NodeJobsPrefix(s: State, u: nat, k: nat, k': nat)
    requires u < |s.nodes| && Linked(s, u) && k <= k' <= |s.edges|
    ensures NodeJobs(s, u, k) <= NodeJobs(s, u, k')
    decreases k'
  {
    if k < k' {
      NodeJobsPrefix(s, u, k, k' - 1);
    }
  }

  /** The next edge of `u` after `k` slots, when some of its jobs are still to come. */
  lemma {:induction false} NextEdge(s: State, u: nat, k: nat) returns (next: nat)
    requires u < |s.nodes| && Linked(s, u) && k <= |s.edges|
    requires |NodeJobs(s, u, k)| < |NodeJobs(s, u, |s.edges|)|
    ensures k <= next < |s.edges| && Touches(s.edges[next], u)
    ensures NodeJobs(s, u, next) == NodeJobs(s, u, k) && RnScores(s, u, next) == RnScores(s, u, k)
    decreases |s.edges| - k
  {
    if Touches(s.edges[k], u) {
      next := k;
    } else {
      ScoresStay(s, u, k);
      next := NextEdge(s, u, k + 1);
    }
  }

  lemma JobAt(s: State, u: nat, k: nat, v: nat)
    requires u < |s.nodes| && Linked(s, u) && k < |s.edges| && Touches(s.edges[k], u)
    requires v < |s.nodes[u].unary|
    ensures var slot, jobs := |NodeJobs(s, u, k)| + v, NodeJobs(s, u, |s.edges|);
            slot < |NodeJobs(s, u, k + 1)| <= |jobs| && jobs[slot] == EdgeJob(s, u, k, v)
  {
    NodeJobsPrefix(s, u, k + 1, |s.edges|);
    AppendAt(NodeJobs(s, u, k), EdgeJobs(s, u, k, |s.nodes[u].unary|), NodeJobs(s, u, |s.edges|), v);
  }

  lemma AppendAt<T>(left: seq<T>, right: seq<T>, all: seq<T>, i: nat)
    requires left + right <= all && i < |right|
    ensures all[|left| + i] == right[i]
  {
    assert (left + right)[|left| + i] == right[i];
  }

  /** The results of the jobs of edge `k` are its projections. */
  lemma ResultsAt(s: State, u: nat, k: nat, results: seq<int>)
    requires u < |s.nodes| && Linked(s, u) && k < |s.edges| && Touches(s.edges[k], u)
    requires results == Minima(NodeJobs(s, u, |s.edges|))
    ensures var start, n := |NodeJobs(s, u, k)|, |s.nodes[u].unary|;
            && start + n == |NodeJobs(s, u, k + 1)| <= |results|
            && forall v: nat :: v < n ==> results[start..start + n][v] == Projection(s, u, v, k)
  {
    var start, n := |NodeJobs(s, u, k)|, |s.nodes[u].unary|;
    NodeJobsPrefix(s, u, k + 1, |s.edges|);
    forall v: nat | v < n ensures results[start..start + n][v] == Projection(s, u, v, k) {
      JobAt(s, u, k, v);
      assert results[start + v] == EdgeJob(s, u, k, v).Minimum();
    }
  }

  /** Per-node batching: the jobs of all edges in one batch, accumulated afterwards. */
  method ScorePerNode(s: State, u: nat) returns (ok: bool, scores: seq<int>)
    requires u < |s.nodes| && Linked(s, u) && |s.nodes[u].unary| > 0
    ensures ok <==> Accepts(s, u, |s.edges|)
    ensures ok ==> scores == RnScores(s, u, |s.edges|)
  {
    var jobs: seq<Job2> := [];
    for k := 0 to |s.edges|
      invariant jobs == NodeJobs(s, u, k)
    {
      if Touches(s.edges[k], u) {
        jobs := jobs + EdgeJobs(s, u, k, |s.nodes[u].unary|);
      }
    }
    var results;
    ok, results := Min2ValueBatch(jobs);
    NodeJobsAccepted(s, u, |s.edges|);
    if ok {
      scores := AccumulateAll(s, u, results);
    } else {
      scores := [];
    }
  }

  method AccumulateAll(s: State, u: nat, results: seq<int>) returns (scores: seq<int>)
    requires u < |s.nodes| && Linked(s, u) && |s.nodes[u].unary| > 0
    requires results == Minima(NodeJobs(s, u, |s.edges|))
    ensures scores == RnScores(s, u, |s.edges|)
  {
    scores := s.nodes[u].unary;
    var n := |scores|;
    var offset := 0;
    ghost var k := 0;
    while offset < |results|
      invariant k <= |s.edges| && offset == |NodeJobs(s, u, k)| <= |results|
      invariant scores == RnScores(s, u, k)
      decreases |results| - offset
    {
      k := NextEdge(s, u, k);
      ResultsAt(s, u, k, results);
      ScoresStep(s, u, k, results[offset..offset + n]);
      scores := Accumulate(scores, results[offset..offset + n]);
      offset := offset + n;
      k := k + 1;
    }
    ScoresDone(s, u, k);
  }

  /** No edge of `u` is left once all its jobs are. */
  lemma {:induction false} ScoresDone(s: State, u: nat, k: nat)
    requires u < |s.nodes| && Linked(s, u) && k <= |s.edges| && |s.nodes[u].unary| > 0
    requires |NodeJobs(s, u, k)| == |NodeJobs(s, u, |s.edges|)|
    ensures RnScores(s, u, k) == RnScores(s, u, |s.edges|)
    decreases |s.edges| - k
  {
    if k < |s.edges| {
      NodeJobsPrefix(s, u, k + 1, |s.edges|);
      ScoresStay(s, u, k);
      ScoresDone(s, u, k + 1);
    }
  }

  /** One matrix row per value of `u`. */
  function Slices(e: Edge, u: nat, values: nat, n: nat): (rows: seq<seq<int>>)
    ensures |rows| == values && Rectangular(rows, n)
    ensures forall v: nat :: v < values ==> rows[v] == Slice(e, u, v, n)
  {
    seq(values, v requires 0 <= v => Slice(e, u, v, n))
  }

  /** No addition of the projections over edge `k` to the scores is refused. */
  ghost predicate SumAccepted(s: State, u: nat, k: nat)
    requires u < |s.nodes| && k < |s.edges|
  {
    Touches(s.edges[k], u) ==>
      forall v: nat :: v < |s.nodes[u].unary| ==>
        AddChecked(Projection(s, u, v, k), RnScore(s, u, v, k)).Sum?
  }

  ghost predicate SumsAccepted(s: State, u: nat, k: nat)
    requires u < |s.nodes| && k <= |s.edges|
  {
    forall j {:trigger SumAccepted(s, u, j)} :: 0 <= j < k ==> SumAccepted(s, u, j)
  }

  /** One vector job of an edge: project every value of `u`. */
  method ProjectMatrix(s: State, u: nat, k: nat) returns (ok: bool, results: seq<int>)
    requires u < |s.nodes| && k < |s.edges| && Other(s.edges[k], u) < |s.nodes|
    ensures ok <==> EdgeAccepted(s, u, k)
    ensures ok ==> |results| == |s.nodes[u].unary|
    ensures ok ==> forall v: nat :: v < |results| ==> results[v] == Projection(s, u, v, k)
  {
    var unary := s.nodes[Other(s.edges[k], u)].unary;
    var matrix := Slices(s.edges[k], u, |s.nodes[u].unary|, |unary|);
    ok, results := MinplusProject(matrix, unary);
    if ok {
      forall v: nat | v < |matrix| ensures EdgeJob(s, u, k, v).Accepted() {
        assert Accepted2(matrix[v], unary);
      }
    } else {
      ghost var r :| 0 <= r < |matrix| && !Accepted2(matrix[r], unary);
      assert !EdgeJob(s, u, k, r).Accepted();
    }
  }

  /** Vector jobs: a matrix projection and a checked vector addition per edge. */
  method ScoreVector(s: State, u: nat) returns (ok: bool, scores: seq<int>)
    requires u < |s.nodes| && Linked(s, u)
    ensures ok <==> Accepts(s, u, |s.edges|) && SumsAccepted(s, u, |s.edges|)
    ensures ok ==> scores == RnScores(s, u, |s.edges|)
  {
    scores := s.nodes[u].unary;
    for k := 0 to |s.edges|
      invariant scores == RnScores(s, u, k)
      invariant Accepts(s, u, k) && SumsAccepted(s, u, k)
    {
      ok, scores := VectorEdge(s, u, k, scores);
      if !ok {
        return false, [];
      }
    }
    ok := true;
  }

  method VectorEdge(s: State, u: nat, k: nat, before: seq<int>) returns (ok: bool, scores: seq<int>)
    requires u < |s.nodes| && Linked(s, u) && k < |s.edges| && before == RnScores(s, u, k)
    ensures ok <==> StepAccepted(s, u, k) && SumAccepted(s, u, k)
    ensures ok ==> scores == RnScores(s, u, k + 1)
  {
    scores := before;
    if !Touches(s.edges[k], u) {
      ScoresStay(s, u, k);
      return true, before;
    }
    var temporary;
    ok, temporary := ProjectMatrix(s, u, k);
    if ok {
      ScoresStep(s, u, k, temporary);
      SumAcceptedStep(s, u, k, temporary);
      ok, scores := CostAddVector(temporary, before);
    }
  }

  lemma SumAcceptedStep(s: State, u: nat, k: nat, temporary: seq<int>)
    requires u < |s.nodes| && k < |s.edges| && Touches(s.edges[k], u)
    requires |temporary| == |s.nodes[u].unary|
    requires forall v: nat :: v < |temporary| ==> temporary[v] == Projection(s, u, v, k)
    ensures Accepted2(temporary, RnScores(s, u, k)) <==> SumAccepted(s, u, k)
  {
    if Accepted2(temporary, RnScores(s, u, k)) {
      forall v: nat | v < |s.nodes[u].unary|
        ensures AddChecked(Projection(s, u, v, k), RnScore(s, u, v, k)).Sum?
      {
        assert AddChecked(temporary[v], RnScores(s, u, k)[v]).Sum?;
      }
    }
  }

  /** On an in-range graph every path scores, and all give the same scores. */
  lemma ScoringAccepted(s: State, u: nat)
    requires Good(s) && u < |s.nodes| && s.nodes[u].active
    ensures Linked(s, u) && Accepts(s, u, |s.edges|) && SumsAccepted(s, u, |s.edges|)
  {
    forall k | 0 <= k < |s.edges| && Touches(s.edges[k], u) ensures Other(s.edges[k], u) < |s.nodes| {
      assert EdgeOk(s, s.edges[k]);
    }
    forall k | 0 <= k < |s.edges| ensures StepAccepted(s, u, k) && SumAccepted(s, u, k) {
      if Touches(s.edges[k], u) {
        forall v: nat | v < |s.nodes[u].unary|
          ensures EdgeJob(s, u, k, v).Accepted()
          ensures AddChecked(Projection(s, u, v, k), RnScore(s, u, v, k)).Sum?
        {
          ScoreAccepted(s, u, v, k);
        }
      }
    }
  }

  /** The scan for the first cheapest score. */
  method FirstCheapest(scores: seq<int>) returns (choice: nat)
    requires |scores| > 0
    ensures choice == FirstMin(scores).index
  {
    choice := 0;
    for v := 1 to |scores|
      invariant choice < v && IsFirstMin(scores[..v], MinArg(scores[choice], choice))
    {
      assert scores[..v + 1][..v] == scores[..v];
      if scores[v] < scores[choice] {
        choice := v;
      }
    }
    assert scores[..|scores|] == scores;
    FirstMinUnique(scores, MinArg(scores[choice], choice));
  }
}
