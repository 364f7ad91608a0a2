/** The exact search and the strategies (software/pbqp/pbqp.cpp: SolveBranchAndReduce and
    Solver::Solve) as methods that rewrite problems in place. */
module Solvers {
  import opened Basics
  import opened Costs
  import opened Graphs
  import opened Reductions
  import opened Conditioning
  import opened Runs
  import opened Problems
  import opened Evaluation
  import Heuristic
  import Search
  import Enumeration

  /** `perNode` and `vectorKernels` pick among batchings that compute the same results. */
  datatype Config = Config(strategy: Strategy, policy: Search.Policy, perNode: bool,
                           vectorKernels: bool, maximumSearchNodes: nat)

  datatype Strategy = ReduceOnly | CoreEnumeration | BranchReduce | HeuristicRN

  /** What a search returns: its status with, when it is Ok, a solution. */
  datatype Answer = Answer(status: Status, optimum: int, assignment: Assignment)

  /** The answer of a search that was not cut short by the limit. */
  ghost predicate Reports(answer: Answer, outcome: Search.Outcome) {
    match answer.status
    case Ok => outcome == Search.Ok(answer.optimum, answer.assignment)
    case Pruned => outcome == Search.Pruned
    case CapacityError => outcome == Search.CapacityError
    case _ => false
  }

  function Failure(status: Status): Answer { Answer(status, INF, []) }

  /** Reductions until none applies. */
  method ReduceAll(p: Problem, config: Config) returns (status: Status)
    requires Good(p.Graph())
    modifies p
    ensures status in {Status.Ok, Status.CapacityError}
    ensures status == Status.CapacityError <==> Runs.ReduceAll(old(p.Graph())) == Full
    ensures status == Status.Ok ==> Runs.ReduceAll(old(p.Graph())) == Done(p.Graph())
  {
    ghost var start := Runs.ReduceAll(p.Graph());
    while true
      invariant Good(p.Graph()) && Runs.ReduceAll(p.Graph()) == start
      decreases ActiveNodes(p.Graph())
    {
      var u := p.FindReducibleNode();
      if u.None? {
        return Status.Ok;
      }
      ReduceNodeStep(p.Graph(), u.value);
      status := p.ReduceNode(u.value, config.perNode && config.vectorKernels);
      if status != Status.Ok {
        return;
      }
    }
  }

  /** Reconstruction of a finished state, from an assignment of zeros. */
  method Finish(s: State) returns (assignment: Assignment)
    requires WF(s) && ActiveNodes(s) == 0
    ensures assignment == Reconstruct(s, Search.Origin(s))
  {
    NoActiveNodes(s);
    var a := new nat[|s.nodes|](i => 0);
    assert a[..] == Search.Origin(s);
    ReconstructSolution(s, a);
    assignment := a[..];
  }

  /** A search that needs so many visits stops exactly when they exceed the limit, and otherwise makes
      all of them. */
  ghost predicate Limited(limit: nat, before: nat, after: nat, visits: nat, stopped: bool) {
    && (stopped <==> limit != 0 && limit < before + visits)
    && (!stopped ==> after == before + visits)
  }

  method SolveBranchAndReduce(p: Problem, config: Config, search: SearchControl, best: int)
    returns (answer: Answer)
    requires Good(p.Graph()) && best <= INF
    modifies p, search
    ensures answer.status == Status.SearchLimit ==> search.limit != 0
    ensures Limited(search.limit, old(search.visited), search.visited,
                    Search.Visits(old(p.Graph()), config.policy, best), answer.status == Status.SearchLimit)
    ensures answer.status != Status.SearchLimit ==>
              Reports(answer, Search.Explore(old(p.Graph()), config.policy, best, true))
    decreases ActiveNodes(p.Graph()), 2
  {
    if search.limit != 0 && search.visited >= search.limit {
      return Failure(Status.SearchLimit);
    }
    search.visited := search.visited + 1;
    ReduceAllPreserves(p.Graph());
    var status := ReduceAll(p, config);
    if status != Status.Ok {
      return Failure(status);
    }
    answer := SolveCore(p, config, search, best);
  }

  /** Bound test, leaf or branch, once no reduction applies. */
  method SolveCore(p: Problem, config: Config, search: SearchControl, best: int)
    returns (answer: Answer)
    requires Good(p.Graph()) && best <= INF
    modifies search
    ensures answer.status == Status.SearchLimit ==> search.limit != 0
    ensures search.limit == 0 || old(search.visited) <= search.limit ==>
              Limited(search.limit, old(search.visited), search.visited,
                      Search.CoreVisits(p.Graph(), config.policy, best), answer.status == Status.SearchLimit)
    ensures answer.status != Status.SearchLimit ==>
              Reports(answer, Search.ExploreCore(p.Graph(), config.policy, best, true))
    decreases ActiveNodes(p.Graph()), 1
  {
    if best != INF {
      var bound := RemainingCoreLowerBound(p.Graph());
      if Add(p.offset, bound) >= best {
        return Failure(Status.Pruned);
      }
    }
    var active := p.ActiveNodeCount();
    if active == 0 {
      var assignment := Finish(p.Graph());
      return Answer(Status.Ok, p.offset, assignment);
    }
    Search.SelectSome(p.Graph(), config.policy);
    var node := p.SelectRnNode(config.policy);
    answer := SolveBranches(p, node.value, config, search, best);
  }

  /** Branches on the selected node. */
  method SolveBranches(p: Problem, u: nat, config: Config, search: SearchControl, best: int) returns (answer: Answer)
    requires Good(p.Graph()) && best <= INF && u < |p.nodes| && p.nodes[u].active
    modifies search
    ensures answer.status == Status.SearchLimit ==> search.limit != 0
    ensures var t := p.Graph();
            && Search.Brood(Search.Children(t, u), ActiveNodes(t))
            && var f, g := Search.Answers(Search.Children(t, u), ActiveNodes(t), config.policy, true),
                           Search.Counts(Search.Children(t, u), ActiveNodes(t), config.policy);
               && (search.limit == 0 || old(search.visited) <= search.limit ==>
                     Limited(search.limit, old(search.visited), search.visited,
                             Search.SweepVisits(f, g, |Search.Children(t, u)|, best),
                             answer.status == Status.SearchLimit))
               && (answer.status != Status.SearchLimit ==>
                     Reports(answer, Branched(Search.Sweep(f, |Search.Children(t, u)|, best, true))))
    decreases ActiveNodes(p.Graph()), 0, 3
  {
    ghost var t := p.Graph();
    Search.ChildrenStep(t, u);
    ChildrenAnswered(t, u, config.policy);
    answer := Branch(p, t, u, config, search, best,
                     Search.Answers(Search.Children(t, u), ActiveNodes(t), config.policy, true),
                     Search.Counts(Search.Children(t, u), ActiveNodes(t), config.policy));
  }

  /** What the search answers when `u` is fixed to `v`. */
  ghost function ChildAnswer(t: State, u: nat, v: nat, policy: Search.Policy, limit: int): Search.Outcome
    requires u < |t.nodes| && v < |t.nodes[u].unary|
  {
    var child := Condition(t, u, v, Kind.Branch);
    if Good(child) then Search.Explore(child, policy, limit, true) else Search.CapacityError
  }

  ghost predicate Asked(v: nat, limit: int) { true }

  /** `f` gives the answer of every child under every limit. */
  ghost predicate Answered(t: State, u: nat, policy: Search.Policy, f: (nat, int) --> Search.Outcome)
    requires u < |t.nodes|
  {
    forall v: nat, limit: int {:trigger Asked(v, limit)} :: v < |t.nodes[u].unary| && Asked(v, limit) ==>
      f.requires(v, limit) && f(v, limit) == ChildAnswer(t, u, v, policy, limit)
  }

  ghost function ChildVisits(t: State, u: nat, v: nat, policy: Search.Policy, limit: int): nat
    requires u < |t.nodes| && v < |t.nodes[u].unary|
  {
    var child := Condition(t, u, v, Kind.Branch);
    if Good(child) then Search.Visits(child, policy, limit) else 0
  }

  /** `g` gives the visits of every child under every limit. */
  ghost predicate Counted(t: State, u: nat, policy: Search.Policy, g: (nat, int) --> nat)
    requires u < |t.nodes|
  {
    forall v: nat, limit: int {:trigger Asked(v, limit)} :: v < |t.nodes[u].unary| && Asked(v, limit) ==>
      g.requires(v, limit) && g(v, limit) == ChildVisits(t, u, v, policy, limit)
  }

  ghost function Branched(pass: Search.Pass): Search.Outcome {
    match pass
    case Stuck => Search.CapacityError
    case Going(found) => Search.AsOutcome(found)
  }

  lemma ChildrenAnswered(t: State, u: nat, policy: Search.Policy)
    requires Good(t) && u < |t.nodes| && t.nodes[u].active
    requires Search.Brood(Search.Children(t, u), ActiveNodes(t))
    ensures Answered(t, u, policy, Search.Answers(Search.Children(t, u), ActiveNodes(t), policy, true))
    ensures Counted(t, u, policy, Search.Counts(Search.Children(t, u), ActiveNodes(t), policy))
  {
    var children := Search.Children(t, u);
    var f, g := Search.Answers(children, ActiveNodes(t), policy, true), Search.Counts(children, ActiveNodes(t), policy);
    forall v: nat, limit: int | v < |t.nodes[u].unary| && Asked(v, limit)
      ensures f.requires(v, limit) && f(v, limit) == ChildAnswer(t, u, v, policy, limit)
      ensures g.requires(v, limit) && g(v, limit) == ChildVisits(t, u, v, policy, limit)
    {
      assert children[v] == Condition(t, u, v, Kind.Branch);
    }
  }

  /** Searches the clone with `u` fixed to `v`. */
  method SearchChild(p: Problem, ghost t: State, u: nat, v: nat, config: Config, search: SearchControl, limit: int,
                     ghost f: (nat, int) --> Search.Outcome, ghost g: (nat, int) --> nat)
    returns (answer: Answer)
    requires p.Graph() == t && Good(t) && u < |t.nodes| && t.nodes[u].active && v < t.nodes[u].domain
    requires limit <= INF && f.requires(v, limit) && Answered(t, u, config.policy, f)
    requires g.requires(v, limit) && Counted(t, u, config.policy, g)
    modifies search
    ensures answer.status == Status.SearchLimit ==> search.limit != 0
    ensures Limited(search.limit, old(search.visited), search.visited, g(v, limit), answer.status == Status.SearchLimit)
    ensures answer.status != Status.SearchLimit ==> Reports(answer, f(v, limit))
    decreases ActiveNodes(t), 0, 0
  {
    Search.ChildStep(t, u, v);
    assert Asked(v, limit);
    var child := new Problem.Clone(p);
    var _ := child.ConditionNode(u, v, Kind.Branch);
    answer := SolveBranchAndReduce(child, config, search, limit);
  }

  /** The next child, as part of the sweep. */
  method SearchNext(p: Problem, ghost t: State, u: nat, v: nat, config: Config, search: SearchControl, best: int,
                    found: Search.Incumbent, ghost f: (nat, int) --> Search.Outcome, ghost g: (nat, int) --> nat)
    returns (answer: Answer)
    requires p.Graph() == t && Good(t) && u < |t.nodes| && t.nodes[u].active && v < t.nodes[u].domain
    requires best <= INF && Search.Tighter(found, best) <= INF
    requires forall i: nat, limit: int :: i < t.nodes[u].domain ==> f.requires(i, limit) && g.requires(i, limit)
    requires Answered(t, u, config.policy, f) && Counted(t, u, config.policy, g)
    requires Search.Sweep(f, v, best, true) == Search.Going(found)
    modifies search
    ensures answer.status == Status.SearchLimit ==> search.limit != 0
    ensures answer.status != Status.SearchLimit ==>
              Reports(answer, f(v, Search.Tighter(found, best)))
              && Search.Sweep(f, v + 1, best, true) == Search.Absorb(found, f(v, Search.Tighter(found, best)))
    ensures var more := Search.SweepVisits(f, g, v + 1, best) - Search.SweepVisits(f, g, v, best);
            && 0 <= more <= Search.SweepVisits(f, g, t.nodes[u].domain, best) - Search.SweepVisits(f, g, v, best)
            && Limited(search.limit, old(search.visited), search.visited, more, answer.status == Status.SearchLimit)
    ensures Search.Sweep(f, v + 1, best, true) == Search.Stuck ==>
              && Search.Sweep(f, t.nodes[u].domain, best, true) == Search.Stuck
              && Search.SweepVisits(f, g, v + 1, best) == Search.SweepVisits(f, g, t.nodes[u].domain, best)
    decreases ActiveNodes(t), 0, 1
  {
    answer := SearchChild(p, t, u, v, config, search, Search.Tighter(found, best), f, g);
    Search.SweepVisitsGrow(f, g, v + 1, t.nodes[u].domain, best);
  }

  /** One conditioned clone per value of `u`, each searched against the tighter incumbent. */
  method Branch(p: Problem, ghost t: State, u: nat, config: Config, search: SearchControl, best: int,
                ghost f: (nat, int) --> Search.Outcome, ghost g: (nat, int) --> nat)
    returns (answer: Answer)
    requires p.Graph() == t && Good(t) && u < |t.nodes| && t.nodes[u].active && best <= INF
    requires forall i: nat, limit: int :: i < t.nodes[u].domain ==> f.requires(i, limit) && g.requires(i, limit)
    requires Answered(t, u, config.policy, f) && Counted(t, u, config.policy, g)
    modifies search
    ensures answer.status == Status.SearchLimit ==> search.limit != 0
    ensures search.limit == 0 || old(search.visited) <= search.limit ==>
              Limited(search.limit, old(search.visited), search.visited,
                      Search.SweepVisits(f, g, t.nodes[u].domain, best), answer.status == Status.SearchLimit)
    ensures answer.status != Status.SearchLimit ==>
              Reports(answer, Branched(Search.Sweep(f, t.nodes[u].domain, best, true)))
    decreases ActiveNodes(t), 0, 2
  {
    var found := Search.Nothing;
    ghost var start := search.visited;
    for v := 0 to p.nodes[u].domain
      invariant p.Graph() == t && Search.Tighter(found, best) <= INF
      invariant Search.Sweep(f, v, best, true) == Search.Going(found)
      invariant search.visited == start + Search.SweepVisits(f, g, v, best)
      invariant search.limit == 0 || start <= search.limit ==> search.limit == 0 || search.visited <= search.limit
    {
      answer := SearchNext(p, t, u, v, config, search, best, found, f, g);
      if answer.status == Status.SearchLimit {
        return;
      }
      if answer.status == Status.CapacityError {
        return;
      }
      if answer.status == Status.Ok {
        found := Search.Better(found, answer.optimum, answer.assignment);
      }
    }
    if found.Nothing? {
      return Failure(Status.Pruned);
    }
    answer := Answer(Status.Ok, found.optimum, found.assignment);
  }
}
