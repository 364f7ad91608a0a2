/** The solver's strategies (software/pbqp/pbqp.cpp: Solver::Solve): what each status means for
    the problem as it was before the call. */
module Strategies {
  import opened Basics
  import opened Costs
  import opened Graphs
  import opened Reductions
  import opened Conditioning
  import opened Runs
  import opened Problems
  import opened Evaluation
  import opened Solvers
  import opened Capacity
  import opened Blocking
  import Heuristic
  import Search
  import Enumeration
  import LocalSearch
  import Descent

  /** The solution is an assignment of `g` with the reported cost, and nothing is cheaper. */
  ghost predicate Optimal(g: State, answer: Answer) {
    Search.Attains(g, answer.optimum, answer.assignment) && Search.AtLeast(g, answer.optimum)
  }

  /** What the exact strategies may answer for problem `g`; a missing slot is reported exactly on
      blocked problems. */
  ghost predicate ExactAnswer(g: State, config: Config, answer: Answer) {
    && (answer.status == Status.CapacityError <==> Blocked(g))
    && (Good(g) ==> (answer.status == Status.SearchLimit <==>
                       config.maximumSearchNodes != 0 && config.maximumSearchNodes < SearchSize(g, config)))
    && match answer.status
    case Ok => Optimal(g, answer)
    case CapacityError => !Room(g)
    case SearchLimit => config.maximumSearchNodes != 0
    case Irreducible =>
      && config.strategy == ReduceOnly && Good(g)
      && Runs.ReduceAll(g).Done? && ActiveNodes(Runs.ReduceAll(g).state) > 0
    case _ => false
  }

  /** How many search nodes a strategy needs after the reductions. */
  ghost function SearchSize(g: State, config: Config): nat
    requires Good(g)
  {
    ReduceAllPreserves(g);
    match Runs.ReduceAll(g)
    case Full => 0
    case Done(t) =>
      if ActiveNodes(t) == 0 then 0
      else if config.strategy == BranchReduce then Search.Visits(t, config.policy, INF)
      else if config.strategy == CoreEnumeration then Enumeration.Calls(t, 0)
      else 0
  }

  lemma OptimalLifts(g: State, t: State, answer: Answer)
    requires Tracks(g, t) && Below(g, t) && Optimal(t, answer)
    ensures Optimal(g, answer)
  {
    Search.ExactLifts(g, t, INF, Search.Ok(answer.optimum, answer.assignment));
  }

  lemma LeafOptimal(g: State, t: State)
    requires Good(t) && Tracks(g, t) && Below(g, t) && ActiveNodes(t) == 0
    ensures Optimal(g, Answer(Status.Ok, t.offset, Reconstruct(t, Search.Origin(t))))
  {
    FinishedRunOptimal(g, t, Search.Origin(t));
    Search.BoundEmpty(t);
  }

  lemma SearchOptimal(g: State, t: State, policy: Search.Policy, answer: Answer)
    requires Good(t) && Tracks(g, t) && Below(g, t) && Reports(answer, Search.Explore(t, policy, INF, true))
    ensures answer.status == Status.Ok || answer.status == Status.CapacityError
    ensures answer.status == Status.Ok ==> Optimal(g, answer)
    ensures answer.status == Status.CapacityError <==> Blocked(t)
  {
    var outcome := Search.ExploreExact(t, policy, INF);
    ExploreFullExactly(t, policy, INF, true);
    if answer.status == Status.Ok {
      OptimalLifts(g, t, answer);
    }
  }

  /** On a problem as it was built, the reported cost is exactly what evaluating the returned
      assignment on the untouched problem gives. */
  lemma ReportedIsEvaluated(g: State, optimum: int, a: Assignment)
    requires Good(g) && g.offset == 0 && Search.Attains(g, optimum, a)
    ensures EvaluateCore(g, a) == optimum
  {
    EvaluateExact(g, a);
  }

  /** Enumerates the active core and reconstructs the rest. */
  method SolveCoreEnumeration(s: State, config: Config, ghost g: State) returns (answer: Answer)
    requires Good(s) && Tracks(g, s) && Below(g, s)
    ensures answer.status == Status.Ok || answer.status == Status.SearchLimit
    ensures answer.status == Status.SearchLimit <==>
              config.maximumSearchNodes != 0 && config.maximumSearchNodes < Enumeration.Calls(s, 0)
    ensures answer.status == Status.Ok ==> Optimal(g, answer)
  {
    var found, hit := EnumerateFromOrigin(s, config.maximumSearchNodes);
    if hit {
      return Failure(Status.SearchLimit);
    }
    ghost var best := Enumeration.CoreOptimal(g, s);
    var assignment := FinishFrom(s, found.assignment);
    answer := Answer(Status.Ok, Add(s.offset, found.optimum), assignment);
  }

  method EnumerateFromOrigin(s: State, limit: nat) returns (found: Search.Incumbent, hit: bool)
    requires GraphOk(s)
    ensures hit <==> limit != 0 && limit < Enumeration.Calls(s, 0)
    ensures !hit ==> found == Enumeration.Enumerate(s, 0, Search.Origin(s), Search.Nothing)
  {
    var a := new nat[|s.nodes|](i => 0);
    assert a[..] == Search.Origin(s);
    var control := new SearchControl(limit);
    found, hit := EnumerateActiveCore(s, 0, a, Search.Nothing, control);
  }

  method FinishFrom(s: State, x: Assignment) returns (assignment: Assignment)
    requires OrderOk(s) && |x| == |s.nodes|
    requires forall i :: 0 <= i < |x| && s.nodes[i].active ==> x[i] < s.nodes[i].domain
    ensures assignment == Reconstruct(s, x)
  {
    var a := new nat[|x|](i requires 0 <= i < |x| => x[i]);
    assert a[..] == x;
    ReconstructSolution(s, a);
    assignment := a[..];
  }

  /** Reduce; then report, enumerate or branch. Every status says something about `p` as it was
      before the call. */
  method SolveExact(p: Problem, config: Config) returns (answer: Answer)
    requires Good(p.Graph()) && config.strategy in {ReduceOnly, CoreEnumeration, BranchReduce}
    modifies p
    ensures ExactAnswer(old(p.Graph()), config, answer)
  {
    ghost var g := p.Graph();
    ReduceAllPreserves(g);
    ReduceAllFullExactly(g);
    if Room(g) {
      ReduceAllRoom(g);
    }
    var status := Solvers.ReduceAll(p, config);
    if status != Status.Ok {
      return Failure(Status.CapacityError);
    }
    ghost var t := p.Graph();
    var active := p.ActiveNodeCount();
    if active == 0 {
      LeafOptimal(g, t);
      var assignment := Finish(p.Graph());
      return Answer(Status.Ok, p.offset, assignment);
    }
    if config.strategy == ReduceOnly {
      return Failure(Status.Irreducible);
    }
    if config.strategy == BranchReduce {
      var search := new SearchControl(config.maximumSearchNodes);
      answer := SolveBranchAndReduce(p, config, search, INF);
      if answer.status != Status.SearchLimit {
        SearchOptimal(g, t, config.policy, answer);
        NoneLinked(t, 0);
      }
      return;
    }
    answer := SolveCoreEnumeration(p.Graph(), config, g);
  }

  // ------------------------------------------------------------- heuristic runs

  /** Fixing a node to a value tracks the problem and keeps room. */
  lemma RnStep(s: State, u: nat, c: nat)
    requires Good(s) && u < |s.nodes| && s.nodes[u].active && c < s.nodes[u].domain
    ensures var t := Condition(s, u, c, RN);
            && Good(t) && Tracks(s, t) && ActiveNodes(t) < ActiveNodes(s)
            && (Room(s) ==> Room(t))
  {
    ConditionPreserves(s, u, c, RN);
    ConditionStructure(s, u, c, RN);
    var t := Condition(s, u, c, RN);
    EliminatesOrder(s, t, u);
    StepTracks(s, t, u);
    if Room(s) {
      RoomKept(s, t);
    }
  }

  lemma RnChoiceLegal(s: State, u: nat)
    requires GraphOk(s) && u < |s.nodes|
    ensures Heuristic.RnChoice(s, u) < s.nodes[u].domain
  {
    var scores := Heuristic.RnScores(s, u, |s.edges|);
    assert IsFirstMin(scores, FirstMin(scores));
  }

  /** Exact reductions while one applies, otherwise the selected node is fixed to its best score. */
  ghost function RnRun(s: State, policy: Search.Policy): Reduced
    requires Good(s)
    decreases ActiveNodes(s)
  {
    match FirstReducible(s, 0)
    case Some(u) =>
      ReduceNodeStep(s, u);
      (match Runs.ReduceNode(s, u)
       case Full => Full
       case Done(t) => RnRun(t, policy))
    case None =>
      if ActiveNodes(s) == 0 then Done(s)
      else
        Search.SelectSome(s, policy);
        var u := Search.Select(s, policy).value;
        RnChoiceLegal(s, u);
        RnStep(s, u, Heuristic.RnChoice(s, u));
        RnRun(Condition(s, u, Heuristic.RnChoice(s, u), RN), policy)
  }

  /** A finished heuristic run tracks the problem: its offset is the cost, on the untouched
      problem, of the assignment it reconstructs. */
  lemma {:induction false} RnRunTracks(s: State, policy: Search.Policy) returns (run: Reduced)
    requires Good(s)
    ensures run == RnRun(s, policy)
    ensures run.Done? ==> Good(run.state) && Tracks(s, run.state) && ActiveNodes(run.state) == 0
    decreases ActiveNodes(s)
  {
    var r := FirstReducible(s, 0);
    if r.Some? {
      ReduceNodeStep(s, r.value);
      var next := Runs.ReduceNode(s, r.value);
      if next.Done? {
        run := RnRunTracks(next.state, policy);
        if run.Done? {
          TracksTransitive(s, next.state, run.state);
        }
      } else {
        run := Full;
      }
    } else if ActiveNodes(s) > 0 {
      var next := RnNext(s, policy);
      run := RnRunTracks(next, policy);
      if run.Done? {
        TracksTransitive(s, next, run.state);
      }
    } else {
      run := Done(s);
    }
  }

  /** The state after fixing the selected node. */
  lemma RnNext(s: State, policy: Search.Policy) returns (next: State)
    requires Good(s) && ActiveNodes(s) > 0 && FirstReducible(s, 0) == None
    ensures Good(next) && Tracks(s, next) && ActiveNodes(next) < ActiveNodes(s)
    ensures Room(s) ==> Room(next)
    ensures RnRun(s, policy) == RnRun(next, policy)
  {
    Search.SelectSome(s, policy);
    var u := Search.Select(s, policy).value;
    RnChoiceLegal(s, u);
    RnStep(s, u, Heuristic.RnChoice(s, u));
    next := Condition(s, u, Heuristic.RnChoice(s, u), RN);
  }

  /** With room a heuristic run finishes. */
  lemma {:induction false} RnRunRoom(s: State, policy: Search.Policy)
    requires Good(s) && Room(s)
    ensures RnRun(s, policy).Done?
    decreases ActiveNodes(s)
  {
    var r := FirstReducible(s, 0);
    if r.Some? {
      ReduceNodeStep(s, r.value);
      ReduceNodeRoom(s, r.value);
      RnRunRoom(Runs.ReduceNode(s, r.value).state, policy);
    } else if ActiveNodes(s) > 0 {
      var next := RnNext(s, policy);
      RnRunRoom(next, policy);
    }
  }

  /** Fixing a node frees slots, so the run then finishes. */
  lemma RnFixed(s: State, policy: Search.Policy)
    requires Good(s) && FirstReducible(s, 0) == None
    ensures RnRun(s, policy).Done?
  {
    if ActiveNodes(s) > 0 {
      Search.SelectSome(s, policy);
      var u := Search.Select(s, policy).value;
      RnChoiceLegal(s, u);
      RnStep(s, u, Heuristic.RnChoice(s, u));
      ConditionFrees(s, u, Heuristic.RnChoice(s, u), RN);
      RnRunRoom(Condition(s, u, Heuristic.RnChoice(s, u), RN), policy);
    }
  }

  lemma RnLinked(s: State, policy: Search.Policy, u: nat)
    requires Good(s) && FirstReducible(s, 0) == Some(u) && |Incident(s, u)| > 0
    ensures RnRun(s, policy) == Full <==> Runs.ReduceNode(s, u) == Full
  {
    ReduceNodeStep(s, u);
    if Runs.ReduceNode(s, u).Done? {
      LinkedFrees(s, u);
      RnRunRoom(Runs.ReduceNode(s, u).state, policy);
    }
  }

  /** A heuristic run fails exactly on blocked problems. */
  lemma {:induction false} RnRunFullExactly(s: State, policy: Search.Policy)
    requires Good(s)
    ensures RnRun(s, policy) == Full <==> Blocked(s)
    decreases ActiveNodes(s)
  {
    var r := FirstReducible(s, 0);
    if r.None? {
      NoneLinked(s, 0);
      RnFixed(s, policy);
    } else if |Incident(s, r.value)| == 0 {
      ReduceNodeStep(s, r.value);
      BlockedKept(s, r.value);
      RnRunFullExactly(ReduceR0(s, r.value), policy);
    } else {
      LinkedAfter(s, 0);
      FirstFails(s, r.value);
      RnLinked(s, policy, r.value);
    }
  }

  lemma RnLeaf(g: State, t: State)
    requires Good(t) && Tracks(g, t) && ActiveNodes(t) == 0
    ensures Search.Attains(g, t.offset, Reconstruct(t, Search.Origin(t)))
  {
    NoActiveNodes(t);
    ReconstructSettles(t, Search.Origin(t));
    EmptyObjective(t, Reconstruct(t, Search.Origin(t)));
    Search.BoundEmpty(t);
  }

  /** The assignment a finished heuristic run reconstructs. */
  ghost function RnAssignment(s: State, policy: Search.Policy): Assignment
    requires Good(s) && RnRun(s, policy).Done?
  {
    var t := RnRun(s, policy).state;
    Reconstruct(t, Search.Origin(t))
  }

  method SolveHeuristicRN(p: Problem, config: Config) returns (answer: Answer)
    requires Good(p.Graph())
    modifies p
    ensures answer.status in {Status.Ok, Status.CapacityError}
    ensures answer.status == Status.CapacityError ==> RnRun(old(p.Graph()), config.policy) == Full
    ensures answer.status == Status.CapacityError <==> Blocked(old(p.Graph()))
    ensures answer.status == Status.Ok ==>
              && RnRun(old(p.Graph()), config.policy) == Done(p.Graph())
              && answer.optimum == p.offset
              && answer.assignment == Reconstruct(p.Graph(), Search.Origin(p.Graph()))
              && Search.Attains(old(p.Graph()), answer.optimum, answer.assignment)
  {
    ghost var g := p.Graph();
    ghost var run := RnRun(g, config.policy);
    RnRunFullExactly(g, config.policy);
    while true
      invariant Good(p.Graph()) && RnRun(p.Graph(), config.policy) == run
      decreases ActiveNodes(p.Graph())
    {
      var u := p.FindReducibleNode();
      if u.None? {
        var active := p.ActiveNodeCount();
        if active == 0 {
          run := RnRunTracks(g, config.policy);
          RnLeaf(g, p.Graph());
          var assignment := Finish(p.Graph());
          return Answer(Status.Ok, p.offset, assignment);
        }
        FixNode(p, config);
      } else {
        ReduceNodeStep(p.Graph(), u.value);
        var status := p.ReduceNode(u.value, config.perNode && config.vectorKernels);
        if status != Status.Ok {
          return Failure(status);
        }
      }
    }
  }

  /** Selects a node and fixes it. */
  method FixNode(p: Problem, config: Config)
    requires Good(p.Graph()) && FirstReducible(p.Graph(), 0) == None && ActiveNodes(p.Graph()) > 0
    modifies p
    ensures Good(p.Graph()) && ActiveNodes(p.Graph()) < old(ActiveNodes(p.Graph()))
    ensures RnRun(p.Graph(), config.policy) == RnRun(old(p.Graph()), config.policy)
  {
    ghost var s := p.Graph();
    Search.SelectSome(s, config.policy);
    var node := p.SelectRnNode(config.policy);
    RnChoiceLegal(s, node.value);
    RnStep(s, node.value, Heuristic.RnChoice(s, node.value));
    var _ := p.ReduceRN(node.value, config.vectorKernels, config.perNode);
  }

  /** Local descent from the heuristic solution on a copy of the problem: it never worsens it. */
  method SolveHybrid(p: Problem, config: Config) returns (answer: Answer)
    requires Good(p.Graph()) && AllActive(p.Graph()) && p.offset == 0
    modifies p
    ensures answer.status in {Status.Ok, Status.CapacityError}
    ensures |old(p.nodes)| == 0 ==> answer.status == Status.CapacityError
    ensures |old(p.nodes)| > 0 && Room(old(p.Graph())) ==> answer.status == Status.Ok
    ensures |old(p.nodes)| > 0 ==> (answer.status == Status.CapacityError <==> Blocked(old(p.Graph())))
    ensures answer.status == Status.Ok ==>
              && RnRun(old(p.Graph()), config.policy).Done?
              && answer.optimum <= RnRun(old(p.Graph()), config.policy).state.offset
              && Descent.Descends(old(p.Graph()), RnAssignment(old(p.Graph()), config.policy), answer.assignment)
              && Valid(old(p.Graph()), answer.assignment)
              && Descent.LocallyOptimal(old(p.Graph()), answer.assignment)
              && Objective(old(p.Graph()), answer.assignment) == ToExt(answer.optimum)
  {
    if |p.nodes| == 0 {
      return Failure(Status.CapacityError);
    }
    ghost var g := p.Graph();
    if Room(g) {
      RnRunRoom(g, config.policy);
    }
    var original := new Problem.Clone(p);
    var rn := SolveHeuristicRN(p, config);
    if rn.status != Status.Ok {
      return rn;
    }
    var optimum, assignment := DescendFrom(original.Graph(), rn.optimum, rn.assignment);
    answer := Answer(Status.Ok, optimum, assignment);
  }

  /** Local search alone; an empty problem has no scratch space and reports a capacity error. */
  method SolveLocal(p: Problem) returns (answer: Answer)
    requires Good(p.Graph()) && AllActive(p.Graph()) && p.offset == 0
    ensures answer.status == if |p.nodes| == 0 then Status.CapacityError else Status.Ok
    ensures answer.status == Status.Ok ==>
              LocalSearch.LocalOptimum(p.Graph(), answer.optimum, answer.assignment,
                                       Search.Origin(p.Graph()))
    ensures answer.status == Status.Ok ==> Explored(p.Graph(), answer.optimum, answer.assignment)
  {
    if |p.nodes| == 0 {
      return Failure(Status.CapacityError);
    }
    var optimum, assignment, first, restarts := LocalSearch.SolveLocalSearch(p.Graph());
    answer := Answer(Status.Ok, optimum, assignment);
  }

  /** Found by descent from the all-zero assignment and restarts with every nonzero value in order. */
  ghost predicate Explored(s: State, optimum: int, assignment: Assignment)
    requires GraphOk(s)
  {
    exists first: Assignment, restarts: seq<LocalSearch.Restart> ::
      && LocalSearch.Searched(s, optimum, assignment, first, restarts)
      && Descent.Descends(s, Search.Origin(s), first)
      && LocalSearch.ChangesOf(restarts) == LocalSearch.ChangesTo(s, |s.nodes|)
  }

  method DescendFrom(s: State, cost: int, x: Assignment) returns (optimum: int, assignment: Assignment)
    requires Good(s) && AllActive(s) && s.offset == 0 && Search.Attains(s, cost, x)
    ensures optimum <= cost && LocalSearch.LocalOptimum(s, optimum, assignment, x)
    ensures Descent.Descends(s, x, assignment)
  {
    var a := new nat[|x|](i requires 0 <= i < |x| => x[i]);
    assert a[..] == x;
    optimum := LocalSearch.Descend(s, a);
    assignment := a[..];
  }
}
