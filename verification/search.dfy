/** Exact branch-and-reduce search (software/pbqp/pbqp.cpp: RemainingCoreLowerBound,
    SelectRnNode, SolveBranchAndReduce). */
module Search {
  import opened Basics
  import opened Costs
  import opened Graphs
  import opened Reductions
  import opened Conditioning
  import opened Runs

  // ------------------------------------------------------------- lower bound

  function RowMin(cost: seq<seq<int>>, i: nat, columns: nat): (m: int)
    requires columns > 0
    ensures forall j :: 0 <= j < columns ==> m <= Entry(cost, i, j)
    ensures exists j :: 0 <= j < columns && m == Entry(cost, i, j)
  {
    var row := seq(columns, j requires 0 <= j => Entry(cost, i, j));
    var m := FirstMin(row);
    assert forall j :: 0 <= j < columns ==> row[j] == Entry(cost, i, j);
    m.value
  }

  function MatrixMin(cost: seq<seq<int>>, rows: nat, columns: nat): (m: int)
    requires rows > 0 && columns > 0
    ensures forall i, j :: 0 <= i < rows && 0 <= j < columns ==> m <= Entry(cost, i, j)
    ensures exists i, j :: 0 <= i < rows && 0 <= j < columns && m == Entry(cost, i, j)
  {
    var last := RowMin(cost, rows - 1, columns);
    if rows == 1 then last
    else
      var above := MatrixMin(cost, rows - 1, columns);
      if last < above then last else above
  }

  function NodeMins(s: State): seq<int> {
    seq(|s.nodes|, i requires 0 <= i < |s.nodes| =>
      if s.nodes[i].active && |s.nodes[i].unary| > 0 then FirstMin(s.nodes[i].unary).value else 0)
  }

  function EdgeMin(s: State, e: Edge): int {
    if e.active && e.first < |s.nodes| && e.second < |s.nodes|
       && s.nodes[e.first].domain > 0 && s.nodes[e.second].domain > 0
    then MatrixMin(e.cost, s.nodes[e.first].domain, s.nodes[e.second].domain)
    else 0
  }

  function EdgeMins(s: State): seq<int> {
    seq(|s.edges|, k requires 0 <= k < |s.edges| => EdgeMin(s, s.edges[k]))
  }

  /** Each active node's cheapest choice plus each active edge's cheapest entry. */
  function LowerBound(s: State): int { Fold(NodeMins(s) + EdgeMins(s)) }

  lemma NodeMinsBelow(s: State, w: Budget, x: Assignment)
    requires GraphOk(s) && Fits(s, w) && Valid(s, x)
    ensures |NodeMins(s)| == |s.nodes|
    ensures forall i :: 0 <= i < |s.nodes| ==>
              Bounded(NodeMins(s)[i], w.node[i])
              && Le(ToExt(NodeMins(s)[i]), ToExt(NodeTerms(s, x)[i]))
  {
    forall i | 0 <= i < |s.nodes|
      ensures Bounded(NodeMins(s)[i], w.node[i])
              && Le(ToExt(NodeMins(s)[i]), ToExt(NodeTerms(s, x)[i]))
    {
      assert UnaryFits(s.nodes[i], w.node[i]);
      TotalMember(w.node, i);
    }
  }

  lemma EdgeMinsBelow(s: State, w: Budget, x: Assignment)
    requires GraphOk(s) && Fits(s, w) && Valid(s, x)
    ensures |EdgeMins(s)| == |s.edges|
    ensures forall k :: 0 <= k < |s.edges| ==>
              Bounded(EdgeMins(s)[k], w.edge[k])
              && Le(ToExt(EdgeMins(s)[k]), ToExt(EdgeTerms(s, x)[k]))
  {
    forall k | 0 <= k < |s.edges|
      ensures Bounded(EdgeMins(s)[k], w.edge[k])
              && Le(ToExt(EdgeMins(s)[k]), ToExt(EdgeTerms(s, x)[k]))
    {
      assert EdgeOk(s, s.edges[k]) && MatrixFits(s, s.edges[k], w.edge[k]);
      TotalMember(w.edge, k);
    }
  }

  lemma LowerBoundExact(s: State, w: Budget, x: Assignment)
    requires GraphOk(s) && Fits(s, w) && Valid(s, x)
    ensures ToExt(LowerBound(s)) == Plus(ExtSum(NodeMins(s)), ExtSum(EdgeMins(s)))
    ensures Bounded(LowerBound(s), Total(w.node) + Total(w.edge))
  {
    NodeMinsBelow(s, w, x);
    EdgeMinsBelow(s, w, x);
    TotalAppend(w.node, w.edge);
    FoldExact(NodeMins(s) + EdgeMins(s), w.node + w.edge);
    ExtSumAppend(NodeMins(s), EdgeMins(s));
  }

  /** The bound never exceeds the objective of any assignment, negative costs included. */
  lemma BoundSound(s: State, x: Assignment)
    requires Good(s) && Valid(s, x)
    ensures Le(ToExt(Add(s.offset, LowerBound(s))), Objective(s, x))
    ensures Add(s.offset, LowerBound(s)) <= INF
  {
    var w :| Fits(s, w);
    LowerBoundExact(s, w, x);
    AddExact(s.offset, LowerBound(s), w.offset, Total(w.node) + Total(w.edge));
    assert Le(ExtSum(NodeMins(s)), ExtSum(NodeTerms(s, x))) by {
      NodeMinsBelow(s, w, x);
      ExtSumMonotone(NodeMins(s), NodeTerms(s, x));
    }
    assert Le(ExtSum(EdgeMins(s)), ExtSum(EdgeTerms(s, x))) by {
      EdgeMinsBelow(s, w, x);
      ExtSumMonotone(EdgeMins(s), EdgeTerms(s, x));
    }
    PlusMonotone(ToExt(s.offset), ExtSum(NodeMins(s)), ExtSum(NodeTerms(s, x)),
                 ExtSum(EdgeMins(s)), ExtSum(EdgeTerms(s, x)));
  }

  /** One lower bound for every active unary vector and every active matrix; nothing for the rest. */
  ghost predicate TermBounds(s: State, nodes: seq<int>, edges: seq<int>) {
    && |nodes| == |s.nodes| && |edges| == |s.edges|
    && (forall i {:trigger nodes[i]} :: 0 <= i < |nodes| ==>
          if s.nodes[i].active
          then forall v {:trigger s.nodes[i].unary[v]} :: 0 <= v < |s.nodes[i].unary| ==>
                 Le(ToExt(nodes[i]), ToExt(s.nodes[i].unary[v]))
          else nodes[i] == 0)
    && forall k {:trigger edges[k]} :: 0 <= k < |edges| ==> EdgeBound(s, s.edges[k], edges[k])
  }

  ghost predicate EdgeBound(s: State, e: Edge, low: int) {
    if e.active && e.first < |s.nodes| && e.second < |s.nodes|
    then forall i, j {:trigger Entry(e.cost, i, j)} ::
           0 <= i < s.nodes[e.first].domain && 0 <= j < s.nodes[e.second].domain ==>
             Le(ToExt(low), ToExt(Entry(e.cost, i, j)))
    else low == 0
  }

  /** The minima are bounds, and no bound is above them. */
  lemma MinsAreBounds(s: State, w: Budget)
    requires GraphOk(s) && Fits(s, w)
    ensures TermBounds(s, NodeMins(s), EdgeMins(s))
  {
    var nodes := NodeMins(s);
    forall i | 0 <= i < |nodes| && s.nodes[i].active
      ensures forall v {:trigger s.nodes[i].unary[v]} :: 0 <= v < |s.nodes[i].unary| ==>
                Le(ToExt(nodes[i]), ToExt(s.nodes[i].unary[v]))
    {
      TotalMember(w.node, i);
      assert UnaryFits(s.nodes[i], w.node[i]) && IsFirstMin(s.nodes[i].unary, FirstMin(s.nodes[i].unary));
    }
    forall k | 0 <= k < |s.edges| ensures EdgeBound(s, s.edges[k], EdgeMins(s)[k]) {
      assert EdgeOk(s, s.edges[k]) && MatrixFits(s, s.edges[k], w.edge[k]);
      TotalMember(w.edge, k);
    }
  }

  lemma MinsLargest(s: State, nodes: seq<int>, edges: seq<int>)
    requires GraphOk(s) && TermBounds(s, nodes, edges)
    ensures forall i :: 0 <= i < |nodes| ==> Le(ToExt(nodes[i]), ToExt(NodeMins(s)[i]))
    ensures forall k :: 0 <= k < |edges| ==> Le(ToExt(edges[k]), ToExt(EdgeMins(s)[k]))
  {
    forall i | 0 <= i < |nodes| ensures Le(ToExt(nodes[i]), ToExt(NodeMins(s)[i])) {
      if s.nodes[i].active {
        assert IsFirstMin(s.nodes[i].unary, FirstMin(s.nodes[i].unary));
      }
    }
    forall k | 0 <= k < |edges| ensures Le(ToExt(edges[k]), ToExt(EdgeMins(s)[k])) {
      assert EdgeBound(s, s.edges[k], edges[k]) && EdgeOk(s, s.edges[k]);
    }
  }

  /** The bound is the largest sum of one lower bound per active unary vector and active matrix. */
  lemma BoundLargest(s: State)
    requires Good(s)
    ensures exists nodes, edges :: TermBounds(s, nodes, edges)
                                   && ToExt(LowerBound(s)) == Plus(ExtSum(nodes), ExtSum(edges))
    ensures forall nodes, edges {:trigger TermBounds(s, nodes, edges)} :: TermBounds(s, nodes, edges) ==>
              Le(Plus(ExtSum(nodes), ExtSum(edges)), ToExt(LowerBound(s)))
  {
    var w :| Fits(s, w);
    var x := seq(|s.nodes|, i => 0);
    LowerBoundExact(s, w, x);
    MinsAreBounds(s, w);
    forall nodes, edges {:trigger TermBounds(s, nodes, edges)} | TermBounds(s, nodes, edges)
      ensures Le(Plus(ExtSum(nodes), ExtSum(edges)), ToExt(LowerBound(s)))
    {
      MinsLargest(s, nodes, edges);
      ExtSumMonotone(nodes, NodeMins(s));
      ExtSumMonotone(edges, EdgeMins(s));
      PlusMonotone(Fin(0), ExtSum(nodes), ExtSum(NodeMins(s)), ExtSum(edges), ExtSum(EdgeMins(s)));
    }
  }

  lemma PlusMonotone(offset: Ext, low: Ext, high: Ext, low': Ext, high': Ext)
    requires Le(low, high) && Le(low', high')
    ensures Le(Plus(offset, Plus(low, low')), Plus(offset, Plus(high, high')))
  {
  }

  /** With nothing active the bound is the offset itself. */
  lemma BoundEmpty(s: State)
    requires Good(s) && ActiveNodes(s) == 0
    ensures Add(s.offset, LowerBound(s)) == s.offset <= INF
  {
    NoActiveNodes(s);
    forall k | 0 <= k < |s.edges| ensures EdgeMins(s)[k] == 0 {
      assert EdgeOk(s, s.edges[k]);
    }
    FoldZero(NodeMins(s) + EdgeMins(s));
    var w :| Fits(s, w);
  }

  lemma {:induction false} FoldZero(terms: seq<int>)
    requires forall i :: 0 <= i < |terms| ==> terms[i] == 0
    ensures Fold(terms) == 0
  {
    if |terms| > 0 {
      FoldZero(terms[..|terms| - 1]);
    }
  }

  // --------------------------------------------------------------- selection

  datatype Policy = MinDegree | MaxDegree | MinWork

  function Degree(s: State, u: nat): nat { |Incident(s, u)| }

  function NeighborWork(s: State, u: nat, k: nat): nat
    requires k <= |s.edges|
  {
    if k == 0 then 0
    else
      var e := s.edges[k - 1];
      NeighborWork(s, u, k - 1)
      + (if Touches(e, u) && Other(e, u) < |s.nodes| then s.nodes[Other(e, u)].domain else 0)
  }

  function Work(s: State, u: nat): nat
    requires u < |s.nodes|
  {
    NeighborWork(s, u, |s.edges|) * s.nodes[u].domain
  }

  /** Node `i` is strictly preferred over node `j`. */
  predicate Preferred(s: State, policy: Policy, i: nat, j: nat)
    requires i < |s.nodes| && j < |s.nodes|
  {
    match policy
    case MinDegree => Degree(s, i) < Degree(s, j)
    case MaxDegree => Degree(s, i) > Degree(s, j)
    case MinWork => Work(s, i) < Work(s, j) || (Work(s, i) == Work(s, j) && Degree(s, i) < Degree(s, j))
  }

  /** The first most preferred active node among the first `k`. */
  function SelectTo(s: State, policy: Policy, k: nat): (u: Option<nat>)
    requires k <= |s.nodes|
    ensures u.Some? ==>
              && u.value < k && s.nodes[u.value].active
              && (forall j :: 0 <= j < k && s.nodes[j].active ==> !Preferred(s, policy, j, u.value))
              && (forall j :: 0 <= j < u.value && s.nodes[j].active ==> Preferred(s, policy, u.value, j))
    ensures u.None? ==> forall j :: 0 <= j < k ==> !s.nodes[j].active
  {
    if k == 0 then None
    else
      var best := SelectTo(s, policy, k - 1);
      if !s.nodes[k - 1].active then best
      else if best.None? || Preferred(s, policy, k - 1, best.value) then Some(k - 1)
      else best
  }

  function Select(s: State, policy: Policy): Option<nat> { SelectTo(s, policy, |s.nodes|) }

  lemma {:induction false} SelectSome(s: State, policy: Policy)
    requires ActiveNodes(s) > 0
    ensures Select(s, policy).Some?
  {
    if Select(s, policy).None? {
      NoneActive(s.nodes);
    }
  }

  lemma {:induction false} NoneActive(nodes: seq<Node>)
    requires forall i :: 0 <= i < |nodes| ==> !nodes[i].active
    ensures Total(ActiveFlags(nodes)) == 0
  {
    if |nodes| > 0 {
      var last := |nodes| - 1;
      NoneActive(nodes[..last]);
      assert ActiveFlags(nodes)[..last] == ActiveFlags(nodes[..last]);
    }
  }

  // ------------------------------------------------------------------ search

  datatype Outcome = Ok(optimum: int, assignment: Assignment) | Pruned | CapacityError

  datatype Incumbent = Nothing | Best(optimum: int, assignment: Assignment)

  /** The tighter of this node's incumbent and the caller's. */
  function Tighter(found: Incumbent, best: int): int {
    var own := if found.Best? then found.optimum else INF;
    if best < own then best else own
  }

  function Better(found: Incumbent, optimum: int, assignment: Assignment): Incumbent {
    if found.Nothing? || optimum < found.optimum then Best(optimum, assignment) else found
  }

  function AsOutcome(found: Incumbent): Outcome {
    match found
    case Nothing => Pruned
    case Best(optimum, assignment) => Ok(optimum, assignment)
  }

  function Origin(s: State): Assignment { seq(|s.nodes|, i => 0) }

  /** The state of a pass over the values of a branch node. */
  datatype Pass = Going(found: Incumbent) | Stuck

  function Absorb(found: Incumbent, outcome: Outcome): Pass {
    match outcome
    case CapacityError => Stuck
    case Pruned => Going(found)
    case Ok(optimum, assignment) => Going(Better(found, optimum, assignment))
  }

  /** The child tracks its parent and agrees with it wherever `u` has value `v`. */
  ghost predicate ChildOf(t: State, child: State, u: nat, v: nat) {
    && Tracks(t, child)
    && (forall x :: Valid(t, x) && At(x, u) == v ==> Objective(child, x) == Objective(t, x))
  }

  lemma ChildStep(t: State, u: nat, v: nat)
    requires Good(t) && u < |t.nodes| && t.nodes[u].active && v < t.nodes[u].domain
    ensures var child := Condition(t, u, v, Branch);
            && Good(child) && ChildOf(t, child, u, v) && ActiveNodes(child) < ActiveNodes(t)
            && |child.nodes| == |t.nodes| && |child.edges| == |t.edges|
  {
    ConditionPreserves(t, u, v, Branch);
    var child := Condition(t, u, v, Branch);
    EliminatesOrder(t, child, u);
    StepTracks(t, child, u);
  }

  /** Well-formed states with fewer than `size` active nodes each. */
  ghost predicate Brood(children: seq<State>, size: nat) {
    forall v :: 0 <= v < |children| ==> Good(children[v]) && ActiveNodes(children[v]) < size
  }

  ghost predicate Branches(t: State, u: nat, children: seq<State>) {
    forall v :: 0 <= v < |children| ==> ChildOf(t, children[v], u, v)
  }

  /** One child state per value of the branch node. */
  function Children(t: State, u: nat): seq<State>
    requires GraphOk(t) && u < |t.nodes|
  {
    seq(t.nodes[u].domain, v requires 0 <= v < t.nodes[u].domain => Condition(t, u, v, Branch))
  }

  lemma ChildrenStep(t: State, u: nat)
    requires Good(t) && u < |t.nodes| && t.nodes[u].active
    ensures var children := Children(t, u);
            && |children| == t.nodes[u].domain > 0
            && Brood(children, ActiveNodes(t)) && Branches(t, u, children)
  {
    var children := Children(t, u);
    forall v | 0 <= v < |children|
      ensures Good(children[v]) && ActiveNodes(children[v]) < ActiveNodes(t)
      ensures ChildOf(t, children[v], u, v)
    {
      ChildStep(t, u, v);
    }
  }

  /** The search from state `s` against the incumbent value `best`. Without `prune` the bound
      test is left out and no incumbent is passed on. */
  function Explore(s: State, policy: Policy, best: int, prune: bool): Outcome
    requires Good(s)
    decreases ActiveNodes(s), 2
  {
    ReduceAllPreserves(s);
    match ReduceAll(s)
    case Full => CapacityError
    case Done(t) => ExploreCore(t, policy, best, prune)
  }

  /** The search once no reduction applies. */
  function ExploreCore(t: State, policy: Policy, best: int, prune: bool): Outcome
    requires Good(t)
    decreases ActiveNodes(t), 1
  {
    if prune && best != INF && Add(t.offset, LowerBound(t)) >= best then Pruned
    else if ActiveNodes(t) == 0 then Ok(t.offset, Reconstruct(t, Origin(t)))
    else
      SelectSome(t, policy);
      var u := Select(t, policy).value;
      ChildrenStep(t, u);
      var children := Children(t, u);
      match Sweep(Answers(children, ActiveNodes(t), policy, prune), |children|, best, prune)
      case Stuck => CapacityError
      case Going(found) => AsOutcome(found)
  }

  /** What the search answers for child `v` under a limit. */
  function Answers(children: seq<State>, size: nat, policy: Policy, prune: bool): (nat, int) --> Outcome
    requires Brood(children, size)
    decreases size, 0
  {
    (v: nat, limit: int) requires v < |children| => Explore(children[v], policy, limit, prune)
  }

  /** The incumbent after the first `v` children. */
  function Sweep(answer: (nat, int) --> Outcome, v: nat, best: int, prune: bool): Pass
    requires forall i: nat, limit: int :: i < v ==> answer.requires(i, limit)
  {
    if v == 0 then Going(Nothing)
    else
      match Sweep(answer, v - 1, best, prune)
      case Stuck => Stuck
      case Going(found) =>
        Absorb(found, answer(v - 1, if prune then Tighter(found, best) else INF))
  }

  // ------------------------------------------------------------- search nodes

  /** The states the pruned search visits. */
  ghost function Visits(s: State, policy: Policy, best: int): nat
    requires Good(s)
    decreases ActiveNodes(s), 2
  {
    ReduceAllPreserves(s);
    match ReduceAll(s)
    case Full => 1
    case Done(t) => 1 + CoreVisits(t, policy, best)
  }

  ghost function CoreVisits(t: State, policy: Policy, best: int): nat
    requires Good(t)
    decreases ActiveNodes(t), 1
  {
    if (best != INF && Add(t.offset, LowerBound(t)) >= best) || ActiveNodes(t) == 0 then 0
    else
      SelectSome(t, policy);
      var u := Select(t, policy).value;
      ChildrenStep(t, u);
      var children := Children(t, u);
      SweepVisits(Answers(children, ActiveNodes(t), policy, true), Counts(children, ActiveNodes(t), policy),
                  |children|, best)
  }

  ghost function Counts(children: seq<State>, size: nat, policy: Policy): (nat, int) --> nat
    requires Brood(children, size)
    decreases size, 0
  {
    (v: nat, limit: int) requires v < |children| => Visits(children[v], policy, limit)
  }

  /** The visits of the first `v` children; none after a failure. */
  ghost function SweepVisits(answer: (nat, int) --> Outcome, count: (nat, int) --> nat, v: nat, best: int): nat
    requires forall i: nat, limit: int :: i < v ==> answer.requires(i, limit) && count.requires(i, limit)
  {
    if v == 0 then 0
    else
      SweepVisits(answer, count, v - 1, best)
      + match Sweep(answer, v - 1, best, true)
        case Stuck => 0
        case Going(found) => count(v - 1, Tighter(found, best))
  }

  lemma {:induction false} SweepVisitsGrow(answer: (nat, int) --> Outcome, count: (nat, int) --> nat, v: nat, n: nat,
                                           best: int)
    requires v <= n && forall i: nat, limit: int :: i < n ==> answer.requires(i, limit) && count.requires(i, limit)
    ensures SweepVisits(answer, count, v, best) <= SweepVisits(answer, count, n, best)
    ensures Sweep(answer, v, best, true) == Stuck ==>
              SweepVisits(answer, count, v, best) == SweepVisits(answer, count, n, best)
    ensures Sweep(answer, v, best, true) == Stuck ==> Sweep(answer, n, best, true) == Stuck
    decreases n
  {
    if v < n {
      SweepVisitsGrow(answer, count, v, n - 1, best);
    }
  }

  // --------------------------------------------------------------- exactness

  ghost predicate Attains(s: State, optimum: int, a: Assignment) {
    && optimum <= INF && Valid(s, a) && Consistent(s, a) && Objective(s, a) == ToExt(optimum)
  }

  ghost predicate AtLeast(s: State, bound: int) {
    forall x :: Valid(s, x) ==> Le(ToExt(bound), Objective(s, x))
  }

  /** What a search may answer: the true optimum, attained by the assignment and better than a
      finite incumbent; or that no assignment beats a finite incumbent. */
  ghost predicate Exact(s: State, best: int, outcome: Outcome) {
    match outcome
    case CapacityError => true
    case Pruned => best != INF && AtLeast(s, best)
    case Ok(optimum, a) =>
      Attains(s, optimum, a) && AtLeast(s, optimum) && (best == INF || optimum < best)
  }

  /** The search is exact under every incumbent. */
  lemma {:induction false} ExploreExact(s: State, policy: Policy, best: int)
    returns (outcome: Outcome)
    requires Good(s) && best <= INF
    ensures outcome == Explore(s, policy, best, true)
    ensures Exact(s, best, outcome)
    decreases ActiveNodes(s), 2
  {
    ReduceAllPreserves(s);
    match ReduceAll(s)
    case Full => outcome := CapacityError;
    case Done(t) =>
      outcome := CoreExact(t, policy, best);
      ExactLifts(s, t, best, outcome);
  }

  lemma {:induction false} CoreExact(t: State, policy: Policy, best: int) returns (outcome: Outcome)
    requires Good(t) && best <= INF
    ensures outcome == ExploreCore(t, policy, best, true)
    ensures Exact(t, best, outcome)
    decreases ActiveNodes(t), 1
  {
    if best != INF && Add(t.offset, LowerBound(t)) >= best {
      outcome := Pruned;
      PrunedSound(t, best);
    } else if ActiveNodes(t) == 0 {
      outcome := Ok(t.offset, Reconstruct(t, Origin(t)));
      LeafExact(t, best);
    } else {
      SelectSome(t, policy);
      var u := Select(t, policy).value;
      ChildrenStep(t, u);
      var pass := BranchExact(t, u, Children(t, u), policy, best);
      outcome := if pass.Going? then AsOutcome(pass.found) else CapacityError;
    }
  }

  lemma PrunedSound(t: State, best: int)
    requires Good(t) && best <= Add(t.offset, LowerBound(t))
    ensures AtLeast(t, best)
  {
    forall x | Valid(t, x) ensures Le(ToExt(best), Objective(t, x)) {
      BoundSound(t, x);
      ToExtMonotone(best, Add(t.offset, LowerBound(t)), Objective(t, x));
    }
  }

  lemma ToExtMonotone(low: int, high: int, e: Ext)
    requires low <= high <= INF && Le(ToExt(high), e)
    ensures Le(ToExt(low), e)
  {
  }

  lemma LeafExact(t: State, best: int)
    requires Good(t) && ActiveNodes(t) == 0
    requires best == INF || Add(t.offset, LowerBound(t)) < best
    ensures Exact(t, best, Ok(t.offset, Reconstruct(t, Origin(t))))
  {
    BoundEmpty(t);
    FinishedRunOptimal(t, t, Origin(t));
  }

  lemma {:induction false} BranchExact(t: State, u: nat, children: seq<State>, policy: Policy, best: int)
    returns (pass: Pass)
    requires u < |t.nodes| && 0 < |children| == t.nodes[u].domain && best <= INF
    requires Brood(children, ActiveNodes(t)) && Branches(t, u, children)
    ensures pass == Sweep(Answers(children, ActiveNodes(t), policy, true), |children|, best, true)
    ensures pass.Going? ==> Exact(t, best, AsOutcome(pass.found))
    decreases ActiveNodes(t), 0, 1
  {
    AnswersExact(children, ActiveNodes(t), policy);
    var answer := Answers(children, ActiveNodes(t), policy, true);
    pass := SweepExact(t, u, children, answer, |children|, best);
    if pass.Going? {
      SweptDone(t, u, pass.found, best);
    }
  }

  lemma ExactLifts(s: State, t: State, best: int, outcome: Outcome)
    requires Tracks(s, t) && Below(s, t) && Exact(t, best, outcome)
    ensures Exact(s, best, outcome)
  {
    forall b, x | AtLeast(t, b) && Valid(s, x) ensures Le(ToExt(b), Objective(s, x)) {
      assert Valid(t, x);
    }
  }

  /** Values below `v` are settled: nothing there beats the tighter incumbent. */
  ghost predicate Swept(t: State, u: nat, v: nat, found: Incumbent, best: int) {
    && (found.Best? ==> Attains(t, found.optimum, found.assignment)
                        && (best == INF || found.optimum < best))
    && (found.Nothing? && best == INF ==> v == 0)
    && (forall x :: Valid(t, x) && At(x, u) < v ==>
          Le(ToExt(Tighter(found, best)), Objective(t, x)))
  }

  lemma SweptStep(t: State, child: State, u: nat, v: nat, found: Incumbent, best: int,
                  outcome: Outcome)
    requires ChildOf(t, child, u, v) && best <= INF && Swept(t, u, v, found, best)
    requires Exact(child, Tighter(found, best), outcome) && Absorb(found, outcome).Going?
    ensures Swept(t, u, v + 1, Absorb(found, outcome).found, best)
  {
    var next := Absorb(found, outcome).found;
    if outcome.Ok? {
      assert Attains(t, outcome.optimum, outcome.assignment);
    }
    forall x | Valid(t, x) && At(x, u) < v + 1
      ensures Le(ToExt(Tighter(next, best)), Objective(t, x))
    {
      SweptValue(t, child, u, v, found, best, outcome, x);
    }
  }

  lemma SweptValue(t: State, child: State, u: nat, v: nat, found: Incumbent, best: int,
                   outcome: Outcome, x: Assignment)
    requires ChildOf(t, child, u, v) && best <= INF && Swept(t, u, v, found, best)
    requires Exact(child, Tighter(found, best), outcome) && Absorb(found, outcome).Going?
    requires Valid(t, x) && At(x, u) <= v
    ensures Le(ToExt(Tighter(Absorb(found, outcome).found, best)), Objective(t, x))
  {
    assert Valid(child, x);
    if At(x, u) == v {
      assert Objective(child, x) == Objective(t, x);
    } else {
      assert Le(ToExt(Tighter(found, best)), Objective(t, x));
    }
  }

  lemma SweptDone(t: State, u: nat, found: Incumbent, best: int)
    requires u < |t.nodes| && t.nodes[u].domain > 0 && best <= INF
    requires Swept(t, u, t.nodes[u].domain, found, best)
    ensures Exact(t, best, AsOutcome(found))
  {
    forall x | Valid(t, x) ensures Le(ToExt(Tighter(found, best)), Objective(t, x)) {
      assert At(x, u) < t.nodes[u].domain;
    }
  }

  ghost predicate ExactAnswers(children: seq<State>, answer: (nat, int) --> Outcome, n: nat)
    requires n <= |children|
    requires forall v: nat, limit: int :: v < n ==> answer.requires(v, limit)
  {
    forall v: nat, limit: int {:trigger answer(v, limit)} :: v < n && limit <= INF ==>
      Exact(children[v], limit, answer(v, limit))
  }

  lemma {:induction false} AnswersExact(children: seq<State>, size: nat, policy: Policy)
    requires Brood(children, size)
    ensures ExactAnswers(children, Answers(children, size, policy, true), |children|)
    decreases size, 0, 0
  {
    var answer := Answers(children, size, policy, true);
    forall v: nat, limit: int | v < |children| && limit <= INF
      ensures Exact(children[v], limit, answer(v, limit))
    {
      var outcome := ExploreExact(children[v], policy, limit);
    }
  }

  lemma {:induction false} SweepExact(t: State, u: nat, children: seq<State>,
                                      answer: (nat, int) --> Outcome, v: nat, best: int)
    returns (pass: Pass)
    requires Branches(t, u, children) && v <= |children| && best <= INF
    requires forall i: nat, limit: int :: i < v ==> answer.requires(i, limit)
    requires ExactAnswers(children, answer, v)
    ensures pass == Sweep(answer, v, best, true)
    ensures pass.Going? ==> Swept(t, u, v, pass.found, best)
  {
    if v == 0 {
      pass := Going(Nothing);
    } else {
      var before := SweepExact(t, u, children, answer, v - 1, best);
      if before.Stuck? {
        pass := Stuck;
      } else {
        var outcome := answer(v - 1, Tighter(before.found, best));
        pass := Absorb(before.found, outcome);
        if pass.Going? {
          SweptStep(t, children[v - 1], u, v - 1, before.found, best, outcome);
        }
      }
    }
  }

  // ------------------------------------------------------- pruning is invisible

  function PrunedAnswer(plain: Incumbent, best: int): Incumbent {
    if plain.Best? && (best == INF || plain.optimum < best) then plain else Nothing
  }

  /** The pruned search keeps the plain incumbent exactly while it beats the limit. */
  lemma IncumbentStep(plain: Incumbent, best: int, optimum: int, a: Assignment)
    requires best <= INF && optimum <= INF && (plain.Best? ==> plain.optimum <= INF)
    ensures var pruned := PrunedAnswer(plain, best);
            var limit := Tighter(pruned, best);
            && limit <= INF
            && PrunedAnswer(Better(plain, optimum, a), best)
               == if limit == INF || optimum < limit then Better(pruned, optimum, a) else pruned
  {
  }

  /** What the pruned search must answer for a given plain answer. */
  function Under(plain: Outcome, limit: int): Outcome {
    if plain.Ok? && limit != INF && plain.optimum >= limit then Pruned else plain
  }

  /** Pruning changes nothing observable: if the search without the bound test answers, the
      pruned search gives the same optimum and the same assignment, ties included, unless the
      optimum does not beat a finite incumbent, and then it reports exactly that. */
  lemma {:induction false} PruningInvisible(s: State, policy: Policy, best: int)
    returns (plain: Outcome)
    requires Good(s) && best <= INF && Explore(s, policy, INF, false) != CapacityError
    ensures plain == Explore(s, policy, INF, false)
    ensures plain.Ok? && plain.optimum <= INF
    ensures Explore(s, policy, best, true) == Under(plain, best)
    decreases ActiveNodes(s), 2
  {
    ReduceAllPreserves(s);
    plain := CoreInvisible(ReduceAll(s).state, policy, best);
  }

  lemma {:induction false} CoreInvisible(t: State, policy: Policy, best: int)
    returns (plain: Outcome)
    requires Good(t) && best <= INF && ExploreCore(t, policy, INF, false) != CapacityError
    ensures plain == ExploreCore(t, policy, INF, false)
    ensures plain.Ok? && plain.optimum <= INF
    ensures ExploreCore(t, policy, best, true) == Under(plain, best)
    decreases ActiveNodes(t), 1
  {
    if ActiveNodes(t) == 0 {
      plain := Ok(t.offset, Reconstruct(t, Origin(t)));
      BoundEmpty(t);
    } else {
      SelectSome(t, policy);
      var u := Select(t, policy).value;
      ChildrenStep(t, u);
      var found := BranchInvisible(t, policy, u, Children(t, u), best);
      plain := AsOutcome(found);
    }
  }

  /** The pruned pass over the children keeps exactly the plain incumbent that beats `best`,
      and the plain answer is no better than the bound. */
  lemma {:induction false} BranchInvisible(t: State, policy: Policy, u: nat, children: seq<State>,
                                           best: int)
    returns (plain: Incumbent)
    requires Good(t) && u < |t.nodes| && 0 < |children| == t.nodes[u].domain && best <= INF
    requires Brood(children, ActiveNodes(t)) && Branches(t, u, children)
    requires Sweep(Answers(children, ActiveNodes(t), policy, false), |children|, INF, false) != Stuck
    ensures Going(plain)
            == Sweep(Answers(children, ActiveNodes(t), policy, false), |children|, INF, false)
    ensures plain.Best? && Add(t.offset, LowerBound(t)) <= plain.optimum <= INF
    ensures Going(PrunedAnswer(plain, best))
            == Sweep(Answers(children, ActiveNodes(t), policy, true), |children|, best, true)
    decreases ActiveNodes(t), 0, 3
  {
    plain := PassInvisible(children, ActiveNodes(t), policy, best);
    var same := PassInvisible(children, ActiveNodes(t), policy, INF);
    var pass := BranchExact(t, u, children, policy, INF);
    BoundBelowAttained(t, plain.optimum, plain.assignment);
  }

  lemma {:induction false} PassInvisible(children: seq<State>, size: nat, policy: Policy, best: int)
    returns (plain: Incumbent)
    requires Brood(children, size) && best <= INF
    requires Sweep(Answers(children, size, policy, false), |children|, INF, false) != Stuck
    ensures Going(plain) == Sweep(Answers(children, size, policy, false), |children|, INF, false)
    ensures plain.Nothing? ==> |children| == 0
    ensures plain.Best? ==> plain.optimum <= INF
    ensures Going(PrunedAnswer(plain, best))
            == Sweep(Answers(children, size, policy, true), |children|, best, true)
    decreases size, 0, 2
  {
    AnswersInvisible(children, size, policy);
    plain := SweepInvisible(Answers(children, size, policy, false),
                            Answers(children, size, policy, true), |children|, best);
  }

  lemma BoundBelowAttained(t: State, optimum: int, a: Assignment)
    requires Good(t) && Attains(t, optimum, a)
    ensures Add(t.offset, LowerBound(t)) <= optimum
  {
    BoundSound(t, a);
  }

  /** `fast` answers under every limit what `slow` answers without one. */
  ghost predicate Agree(slow: (nat, int) --> Outcome, fast: (nat, int) --> Outcome, n: nat)
    requires forall v: nat, limit: int :: v < n ==> slow.requires(v, limit) && fast.requires(v, limit)
  {
    && (forall v: nat :: v < n ==> slow(v, INF).Ok? && slow(v, INF).optimum <= INF)
    && (forall v: nat, limit: int {:trigger fast(v, limit)} :: v < n && limit <= INF ==>
          fast(v, limit) == Under(slow(v, INF), limit))
  }

  lemma {:induction false} AnswersInvisible(children: seq<State>, size: nat, policy: Policy)
    requires Brood(children, size)
    requires Sweep(Answers(children, size, policy, false), |children|, INF, false) != Stuck
    ensures Agree(Answers(children, size, policy, false), Answers(children, size, policy, true), |children|)
    decreases size, 0, 1
  {
    var slow, fast := Answers(children, size, policy, false), Answers(children, size, policy, true);
    NeverStuck(slow, |children|);
    forall v: nat | v < |children| ensures slow(v, INF).Ok? && slow(v, INF).optimum <= INF {
      ChildInvisible(children, size, policy, v, INF);
    }
    forall v: nat, limit: int | v < |children| && limit <= INF
      ensures fast(v, limit) == Under(slow(v, INF), limit)
    {
      ChildInvisible(children, size, policy, v, limit);
    }
  }

  lemma {:induction false} ChildInvisible(children: seq<State>, size: nat, policy: Policy, v: nat,
                                          limit: int)
    requires Brood(children, size) && v < |children| && limit <= INF
    requires Answers(children, size, policy, false)(v, INF) != CapacityError
    ensures var plain := Answers(children, size, policy, false)(v, INF);
            && plain.Ok? && plain.optimum <= INF
            && Answers(children, size, policy, true)(v, limit) == Under(plain, limit)
    decreases size, 0, 0
  {
    var plain := PruningInvisible(children[v], policy, limit);
  }

  lemma {:induction false} NeverStuck(answer: (nat, int) --> Outcome, v: nat)
    requires forall i: nat, limit: int :: i < v ==> answer.requires(i, limit)
    requires Sweep(answer, v, INF, false) != Stuck
    ensures forall i: nat :: i < v ==> answer(i, INF) != CapacityError
  {
    if v > 0 {
      NeverStuck(answer, v - 1);
    }
  }

  lemma {:induction false} SweepInvisible(slow: (nat, int) --> Outcome, fast: (nat, int) --> Outcome,
                                          v: nat, best: int)
    returns (plain: Incumbent)
    requires best <= INF
    requires forall i: nat, limit: int :: i < v ==> slow.requires(i, limit) && fast.requires(i, limit)
    requires Agree(slow, fast, v)
    ensures Going(plain) == Sweep(slow, v, INF, false)
    ensures plain.Nothing? ==> v == 0
    ensures plain.Best? ==> plain.optimum <= INF
    ensures Going(PrunedAnswer(plain, best)) == Sweep(fast, v, best, true)
  {
    if v == 0 {
      plain := Nothing;
    } else {
      var before := SweepInvisible(slow, fast, v - 1, best);
      var answer := slow(v - 1, INF);
      var limit := Tighter(PrunedAnswer(before, best), best);
      assert fast(v - 1, limit) == Under(answer, limit);
      IncumbentStep(before, best, answer.optimum, answer.assignment);
      plain := Better(before, answer.optimum, answer.assignment);
    }
  }
}
