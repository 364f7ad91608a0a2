/** How many states the pruned search visits (software/pbqp/pbqp.cpp: SolveBranchAndReduce), told by what
    assignments cost: which states have no children, and under which limit each child is searched. */
module SearchVisits {
  import opened Basics
  import opened Costs
  import opened Graphs
  import opened Reductions
  import opened Conditioning
  import opened Runs
  import opened Search
  import opened Blocking

  // ---------------------------------------------------------------- selection

  ghost function TouchingTo(s: State, u: nat, k: nat): set<nat>
    requires k <= |s.edges|
  {
    set j: nat | j < k && Touches(s.edges[j], u)
  }

  lemma {:induction false} IncidentCount(s: State, u: nat, k: nat)
    requires k <= |s.edges|
    ensures |IncidentTo(s.edges, u, k)| == |TouchingTo(s, u, k)|
  {
    if k == 0 {
      assert TouchingTo(s, u, 0) == {};
    } else {
      IncidentCount(s, u, k - 1);
      if Touches(s.edges[k - 1], u) {
        assert TouchingTo(s, u, k) == TouchingTo(s, u, k - 1) + {k - 1};
      } else {
        assert TouchingTo(s, u, k) == TouchingTo(s, u, k - 1);
      }
    }
  }

  /** The active edges at a node. */
  ghost function EdgesAt(s: State, u: nat): set<nat> { TouchingTo(s, u, |s.edges|) }

  /** Entries of the matrix in slot `k` if it is an active edge at the node. */
  function EntryCount(s: State, u: nat, k: nat): nat
    requires u < |s.nodes| && k < |s.edges|
  {
    if Touches(s.edges[k], u) && Other(s.edges[k], u) < |s.nodes|
    then s.nodes[u].domain * s.nodes[Other(s.edges[k], u)].domain else 0
  }

  function EntriesAt(s: State, u: nat): (entries: seq<nat>)
    requires u < |s.nodes|
    ensures |entries| == |s.edges| && forall k :: 0 <= k < |entries| ==> entries[k] == EntryCount(s, u, k)
  {
    seq(|s.edges|, k requires 0 <= k < |s.edges| => EntryCount(s, u, k))
  }

  lemma {:induction false} WorkTo(s: State, u: nat, k: nat)
    requires u < |s.nodes| && k <= |s.edges|
    ensures NeighborWork(s, u, k) * s.nodes[u].domain == Total(EntriesAt(s, u)[..k])
  {
    if k > 0 {
      WorkTo(s, u, k - 1);
      assert EntriesAt(s, u)[..k][..k - 1] == EntriesAt(s, u)[..k - 1];
      var more := NeighborWork(s, u, k) - NeighborWork(s, u, k - 1);
      Distributes(NeighborWork(s, u, k - 1), more, s.nodes[u].domain);
    }
  }

  lemma Distributes(a: nat, b: nat, c: nat)
    ensures (a + b) * c == a * c + c * b
  {
  }

  /** The work of a node is the number of entries of the matrices at its edges. */
  lemma WorkIsEntries(s: State, u: nat)
    requires u < |s.nodes|
    ensures Work(s, u) == Total(EntriesAt(s, u))
  {
    WorkTo(s, u, |s.edges|);
    assert EntriesAt(s, u)[..|s.edges|] == EntriesAt(s, u);
  }

  /** Whether a policy puts node `i` before node `j`: fewer edges, more edges, or fewer matrix entries
      and then fewer edges. */
  ghost predicate Ahead(s: State, policy: Policy, i: nat, j: nat)
    requires i < |s.nodes| && j < |s.nodes|
  {
    var a, b := |EdgesAt(s, i)|, |EdgesAt(s, j)|;
    var c, d := Total(EntriesAt(s, i)), Total(EntriesAt(s, j));
    match policy
    case MinDegree => a < b
    case MaxDegree => a > b
    case MinWork => c < d || (c == d && a < b)
  }

  lemma AheadIs(s: State, policy: Policy, i: nat, j: nat)
    requires i < |s.nodes| && j < |s.nodes|
    ensures Preferred(s, policy, i, j) <==> Ahead(s, policy, i, j)
  {
    IncidentCount(s, i, |s.edges|);
    IncidentCount(s, j, |s.edges|);
    WorkIsEntries(s, i);
    WorkIsEntries(s, j);
  }

  /** The node selected is active; no active node is ahead of it, and it is ahead of all active nodes
      with a smaller index. */
  lemma SelectedFirst(s: State, policy: Policy, u: nat)
    requires Select(s, policy) == Some(u)
    ensures u < |s.nodes| && s.nodes[u].active
    ensures forall j {:trigger s.nodes[j]} :: 0 <= j < |s.nodes| && s.nodes[j].active ==>
              !Ahead(s, policy, j, u) && (j < u ==> Ahead(s, policy, u, j))
  {
    forall j {:trigger s.nodes[j]} | 0 <= j < |s.nodes| && s.nodes[j].active
      ensures !Ahead(s, policy, j, u) && (j < u ==> Ahead(s, policy, u, j))
    {
      AheadIs(s, policy, j, u);
      AheadIs(s, policy, u, j);
    }
  }

  // --------------------------------------------------------------- the bound test

  /** Some sum of lower bounds of the active terms reaches a finite incumbent. */
  ghost predicate Hopeless(t: State, best: int) {
    best != INF
    && exists nodes, edges :: TermBounds(t, nodes, edges)
                              && Le(ToExt(best), Plus(ToExt(t.offset), Plus(ExtSum(nodes), ExtSum(edges))))
  }

  lemma BoundSum(t: State)
    requires Good(t)
    ensures ToExt(Add(t.offset, LowerBound(t))) == Plus(ToExt(t.offset), ToExt(LowerBound(t)))
    ensures Add(t.offset, LowerBound(t)) <= INF
  {
    var w :| Fits(t, w);
    LowerBoundExact(t, w, Origin(t));
    AddExact(t.offset, LowerBound(t), w.offset, Total(w.node) + Total(w.edge));
  }

  lemma LePlus(best: Ext, offset: Ext, sum: Ext, bound: Ext)
    requires Le(best, Plus(offset, sum)) && Le(sum, bound)
    ensures Le(best, Plus(offset, bound))
  {
  }

  /** The search prunes exactly the hopeless states. */
  lemma PrunesExactly(t: State, best: int)
    requires Good(t) && best <= INF
    ensures best != INF && Add(t.offset, LowerBound(t)) >= best <==> Hopeless(t, best)
  {
    BoundSum(t);
    BoundLargest(t);
    if best != INF && Add(t.offset, LowerBound(t)) >= best {
      var nodes, edges :| TermBounds(t, nodes, edges) && ToExt(LowerBound(t)) == Plus(ExtSum(nodes), ExtSum(edges));
      assert Le(ToExt(best), Plus(ToExt(t.offset), Plus(ExtSum(nodes), ExtSum(edges))));
    }
    if Hopeless(t, best) {
      var nodes, edges :| TermBounds(t, nodes, edges)
                          && Le(ToExt(best), Plus(ToExt(t.offset), Plus(ExtSum(nodes), ExtSum(edges))));
      LePlus(ToExt(best), ToExt(t.offset), Plus(ExtSum(nodes), ExtSum(edges)), ToExt(LowerBound(t)));
    }
  }

  // -------------------------------------------------------------------- limits

  /** The least of the incumbent and all costs of assignments that give `u` a value below `v`. */
  ghost predicate LeastBefore(t: State, u: nat, best: int, v: nat, limit: int) {
    && limit <= best
    && (forall x {:trigger Valid(t, x)} :: Valid(t, x) && At(x, u) < v ==> Le(ToExt(limit), Objective(t, x)))
    && (limit == best || exists x :: Valid(t, x) && At(x, u) < v && Objective(t, x) == ToExt(limit))
  }

  /** Something with a value below `v` costs what was found. */
  ghost predicate FoundBefore(t: State, u: nat, v: nat, found: Incumbent) {
    found.Best? ==> exists x :: Valid(t, x) && At(x, u) < v && Objective(t, x) == ToExt(found.optimum)
  }

  /** An answer for the child with value `v` is the cost of an assignment with that value. */
  lemma AnswerBefore(t: State, u: nat, v: nat, child: State, optimum: int, a: Assignment) returns (x: Assignment)
    requires Good(t) && u < |t.nodes| && t.nodes[u].active && v < t.nodes[u].domain
    requires child == Condition(t, u, v, Branch) && ChildOf(t, child, u, v) && Attains(child, optimum, a)
    ensures Valid(t, x) && At(x, u) == v && Objective(t, x) == ToExt(optimum)
  {
    ConditionStructure(t, u, v, Branch);
    x := a[u := v];
    assert Valid(t, x);
    ObjectiveFrame(child, x, a);
  }

  lemma FoundNext(t: State, u: nat, v: nat, child: State, found: Incumbent, outcome: Outcome)
    requires Good(t) && u < |t.nodes| && t.nodes[u].active && v < t.nodes[u].domain
    requires child == Condition(t, u, v, Branch) && ChildOf(t, child, u, v)
    requires FoundBefore(t, u, v, found) && Absorb(found, outcome).Going?
    requires outcome.Ok? ==> Attains(child, outcome.optimum, outcome.assignment)
    ensures FoundBefore(t, u, v + 1, Absorb(found, outcome).found)
  {
    if outcome.Ok? {
      var x := AnswerBefore(t, u, v, child, outcome.optimum, outcome.assignment);
    }
  }

  lemma LimitIs(t: State, u: nat, v: nat, found: Incumbent, best: int)
    requires best <= INF && Swept(t, u, v, found, best) && FoundBefore(t, u, v, found)
    ensures LeastBefore(t, u, best, v, Tighter(found, best)) && Tighter(found, best) <= INF
  {
  }

  type Answering = (nat, int) --> Outcome

  type Counting = (nat, int) --> nat

  /** One more child: its limit, and what is known after it. */
  lemma ChildLimit(t: State, u: nat, v: nat, child: State, before: Incumbent, best: int, outcome: Outcome)
    returns (limit: int)
    requires Good(t) && u < |t.nodes| && t.nodes[u].active && v < t.nodes[u].domain && best <= INF
    requires child == Condition(t, u, v, Branch) && ChildOf(t, child, u, v)
    requires Swept(t, u, v, before, best) && FoundBefore(t, u, v, before)
    requires Exact(child, Tighter(before, best), outcome) && Absorb(before, outcome).Going?
    ensures limit == Tighter(before, best) <= INF && LeastBefore(t, u, best, v, limit)
    ensures Swept(t, u, v + 1, Absorb(before, outcome).found, best)
    ensures FoundBefore(t, u, v + 1, Absorb(before, outcome).found)
  {
    limit := Tighter(before, best);
    LimitIs(t, u, v, before, best);
    SweptStep(t, child, u, v, before, best, outcome);
    FoundNext(t, u, v, child, before, outcome);
  }

  /** `known(v, found)` holds before child `v`; every child is searched under its limit. */
  type Known = (nat, Incumbent) -> bool

  type Fit = (nat, int) -> bool

  ghost predicate Passed(v: nat, found: Incumbent) { true }

  ghost predicate Advances(known: Known, fit: Fit, answer: Answering, n: nat, best: int)
    requires forall i: nat, limit: int :: i < n ==> answer.requires(i, limit)
  {
    && known(0, Nothing)
    && forall v: nat, found {:trigger Passed(v, found)} :: Passed(v, found) && v < n && known(v, found) ==>
         var outcome := answer(v, Tighter(found, best));
         && fit(v, Tighter(found, best))
         && (Absorb(found, outcome).Going? ==> known(v + 1, Absorb(found, outcome).found))
  }

  lemma {:induction false} SweepLimits(known: Known, fit: Fit, answer: Answering, count: Counting, n: nat, v: nat,
                                       best: int)
    returns (found: Incumbent, limits: seq<int>, counts: seq<nat>)
    requires v <= n && forall i: nat, limit: int :: i < n ==> answer.requires(i, limit) && count.requires(i, limit)
    requires Advances(known, fit, answer, n, best) && Sweep(answer, v, best, true).Going?
    ensures Sweep(answer, v, best, true) == Going(found) && known(v, found)
    ensures |limits| == |counts| == v && SweepVisits(answer, count, v, best) == Total(counts)
    ensures forall i: nat {:trigger limits[i]} :: i < v ==> fit(i, limits[i]) && counts[i] == count(i, limits[i])
  {
    if v == 0 {
      found, limits, counts := Nothing, [], [];
    } else {
      var before, ls, cs := SweepLimits(known, fit, answer, count, n, v - 1, best);
      assert Passed(v - 1, before);
      var limit := Tighter(before, best);
      found := Absorb(before, answer(v - 1, limit)).found;
      limits, counts := ls + [limit], cs + [count(v - 1, limit)];
      assert counts[..v - 1] == cs;
    }
  }

  // -------------------------------------------------------------------- visits

  ghost predicate Branched(t: State, policy: Policy, best: int, visits: nat)
    requires Good(t)
  {
    exists u: nat, limits: seq<int>, counts: seq<nat> ::
      && Select(t, policy) == Some(u) && u < |t.nodes| && t.nodes[u].active
      && |limits| == |counts| == t.nodes[u].domain && visits == 1 + Total(counts)
      && forall v: nat {:trigger limits[v]} :: v < |limits| ==> ChildCounts(t, u, policy, best, v, limits[v], counts[v])
  }

  /** The child with value `v` of `u` is searched under this limit and takes so many visits. */
  ghost predicate ChildCounts(t: State, u: nat, policy: Policy, best: int, v: nat, limit: int, visits: nat)
    requires Good(t) && u < |t.nodes| && v < t.nodes[u].domain
  {
    assert NodeOk(t.nodes[u], t.stride);
    var child := Condition(t, u, v, Branch);
    limit <= INF && LeastBefore(t, u, best, v, limit) && Good(child) && visits == Visits(child, policy, limit)
  }

  lemma BranchAdvances(t: State, policy: Policy, best: int, u: nat, known: Known, fit: Fit)
    requires Good(t) && best <= INF && u < |t.nodes| && t.nodes[u].active && Brood(Children(t, u), ActiveNodes(t))
    requires Branches(t, u, Children(t, u)) && |Children(t, u)| == t.nodes[u].domain
    requires ExactAnswers(Children(t, u), Answers(Children(t, u), ActiveNodes(t), policy, true), |Children(t, u)|)
    requires forall v: nat, found {:trigger Passed(v, found)} ::
               Passed(v, found) ==> known(v, found) == (Swept(t, u, v, found, best) && FoundBefore(t, u, v, found))
    requires forall v: nat, limit {:trigger fit(v, limit)} ::
               fit(v, limit) == (limit <= INF && LeastBefore(t, u, best, v, limit))
    ensures Advances(known, fit, Answers(Children(t, u), ActiveNodes(t), policy, true), |Children(t, u)|, best)
  {
    var children, answer := Children(t, u), Answers(Children(t, u), ActiveNodes(t), policy, true);
    assert Passed(0, Nothing);
    forall v: nat, found {:trigger Passed(v, found)} | Passed(v, found) && v < |children| && known(v, found)
      ensures fit(v, Tighter(found, best))
      ensures var outcome := answer(v, Tighter(found, best));
              Absorb(found, outcome).Going? ==> known(v + 1, Absorb(found, outcome).found)
    {
      LimitIs(t, u, v, found, best);
      var outcome := answer(v, Tighter(found, best));
      if Absorb(found, outcome).Going? {
        assert children[v] == Condition(t, u, v, Branch) && ChildOf(t, children[v], u, v);
        var limit := ChildLimit(t, u, v, children[v], found, best, outcome);
        assert Passed(v + 1, Absorb(found, outcome).found);
      }
    }
  }

  /** The pass over the children, when the search branches. */
  lemma CoreSweeps(t: State, policy: Policy, best: int) returns (u: nat)
    requires Good(t) && best <= INF && FirstReducible(t, 0) == None && ActiveNodes(t) != 0
    requires best == INF || Add(t.offset, LowerBound(t)) < best
    ensures Select(t, policy) == Some(u) && u < |t.nodes| && t.nodes[u].active
    ensures var children, size := Children(t, u), ActiveNodes(t);
            && |children| == t.nodes[u].domain && Brood(children, size) && Branches(t, u, children)
            && Sweep(Answers(children, size, policy, true), |children|, best, true).Going?
            && CoreVisits(t, policy, best)
               == SweepVisits(Answers(children, size, policy, true), Counts(children, size, policy), |children|, best)
  {
    SelectSome(t, policy);
    u := Select(t, policy).value;
    ChildrenStep(t, u);
    CoreNeverFull(t, policy, best, true);
  }

  lemma ChildCounted(t: State, u: nat, policy: Policy, best: int, v: nat, limit: int)
    requires Good(t) && u < |t.nodes| && t.nodes[u].active && v < t.nodes[u].domain
    requires Brood(Children(t, u), ActiveNodes(t)) && limit <= INF && LeastBefore(t, u, best, v, limit)
    ensures ChildCounts(t, u, policy, best, v, limit, Counts(Children(t, u), ActiveNodes(t), policy)(v, limit))
  {
    assert Children(t, u)[v] == Condition(t, u, v, Branch);
  }

  lemma BranchCounts(t: State, u: nat, policy: Policy, best: int) returns (limits: seq<int>, counts: seq<nat>)
    requires Good(t) && best <= INF && u < |t.nodes| && t.nodes[u].active && |Children(t, u)| == t.nodes[u].domain
    requires Brood(Children(t, u), ActiveNodes(t)) && Branches(t, u, Children(t, u))
    requires Sweep(Answers(Children(t, u), ActiveNodes(t), policy, true), t.nodes[u].domain, best, true).Going?
    ensures |limits| == |counts| == t.nodes[u].domain
    ensures forall v: nat {:trigger limits[v]} :: v < |limits| ==>
            ChildCounts(t, u, policy, best, v, limits[v], counts[v])
    ensures SweepVisits(Answers(Children(t, u), ActiveNodes(t), policy, true),
                        Counts(Children(t, u), ActiveNodes(t), policy), t.nodes[u].domain, best) == Total(counts)
  {
    var children, size := Children(t, u), ActiveNodes(t);
    AnswersExact(children, size, policy);
    var known: Known := (v: nat, found: Incumbent) => Swept(t, u, v, found, best) && FoundBefore(t, u, v, found);
    var fit: Fit := (v: nat, limit: int) => limit <= INF && LeastBefore(t, u, best, v, limit);
    BranchAdvances(t, policy, best, u, known, fit);
    var count := Counts(children, size, policy);
    var found;
    found, limits, counts := SweepLimits(known, fit, Answers(children, size, policy, true), count, |children|,
                                         |children|, best);
    forall v: nat {:trigger limits[v]} | v < |limits|
      ensures ChildCounts(t, u, policy, best, v, limits[v], counts[v])
    {
      assert fit(v, limits[v]);
      ChildCounted(t, u, policy, best, v, limits[v]);
    }
  }

  lemma CoreBranched(t: State, policy: Policy, best: int, visits: nat)
    requires Good(t) && best <= INF && FirstReducible(t, 0) == None && ActiveNodes(t) != 0
    requires visits == 1 + CoreVisits(t, policy, best)
    requires best == INF || Add(t.offset, LowerBound(t)) < best
    ensures Branched(t, policy, best, visits)
  {
    var u := CoreSweeps(t, policy, best);
    var limits, counts := BranchCounts(t, u, policy, best);
    assert Select(t, policy) == Some(u) && visits == 1 + Total(counts);
  }

  lemma VisitsOf(s: State, policy: Policy, best: int)
    requires Good(s)
    ensures ReduceAll(s).Full? ==> Visits(s, policy, best) == 1
    ensures ReduceAll(s).Done? ==>
              Good(ReduceAll(s).state) && Visits(s, policy, best) == 1 + CoreVisits(ReduceAll(s).state, policy, best)
  {
    ReduceAllPreserves(s);
  }

  /** The visits from a fully reduced state: one where it is finished or hopeless; otherwise one more
      than its children, each searched under the least of the incumbent and all costs with a smaller
      value of the selected node. */
  ghost predicate VisitsAre(t: State, policy: Policy, best: int, visits: nat)
    requires Good(t)
  {
    if ActiveNodes(t) == 0 || Hopeless(t, best) then visits == 1 else Branched(t, policy, best, visits)
  }

  lemma LeafVisits(t: State, policy: Policy, best: int)
    requires Good(t) && best <= INF && (ActiveNodes(t) == 0 || Hopeless(t, best))
    ensures CoreVisits(t, policy, best) == 0
  {
    PrunesExactly(t, best);
  }

  lemma CoreMeans(t: State, policy: Policy, best: int, visits: nat)
    requires Good(t) && best <= INF && FirstReducible(t, 0) == None && visits == 1 + CoreVisits(t, policy, best)
    ensures VisitsAre(t, policy, best, visits)
  {
    if ActiveNodes(t) == 0 || Hopeless(t, best) {
      LeafVisits(t, policy, best);
    } else {
      PrunesExactly(t, best);
      CoreBranched(t, policy, best, visits);
    }
  }

  lemma ReducedFully(s: State, t: State)
    requires Good(s) && ReduceAll(s) == Done(t)
    ensures Good(t) && FirstReducible(t, 0) == None
  {
    ReduceAllPreserves(s);
  }

  /** A problem that the reductions finish or reduce to `t` takes the visits of `t`. */
  lemma VisitsMean(s: State, t: State, policy: Policy, best: int)
    requires Good(s) && best <= INF && ReduceAll(s) == Done(t)
    ensures Good(t) && VisitsAre(t, policy, best, Visits(s, policy, best))
  {
    ReducedFully(s, t);
    VisitsOf(s, policy, best);
    CoreMeans(t, policy, best, Visits(s, policy, best));
  }

  /** A blocked problem takes a single visit. */
  lemma BlockedVisits(s: State, policy: Policy, best: int)
    requires Good(s) && Blocked(s)
    ensures Visits(s, policy, best) == 1
  {
    ReduceAllFullExactly(s);
    VisitsOf(s, policy, best);
  }
}
