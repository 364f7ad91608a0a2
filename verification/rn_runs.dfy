/** What one step of the RN strategy does (software/pbqp/pbqp.cpp: Solver::Solve), told by counts and
    costs. */
module RnRuns {
  import opened Basics
  import opened Costs
  import opened Graphs
  import opened Reductions
  import opened Conditioning
  import opened Runs
  import opened Stars
  import opened SearchVisits
  import opened Strategies
  import Search
  import Heuristic

  /** `u` is active, and ahead of all other active nodes or level with them and first. */
  ghost predicate Foremost(s: State, policy: Search.Policy, u: nat) {
    && u < |s.nodes| && s.nodes[u].active
    && forall j {:trigger s.nodes[j]} :: 0 <= j < |s.nodes| && s.nodes[j].active ==>
         !Ahead(s, policy, j, u) && (j < u ==> Ahead(s, policy, u, j))
  }

  /** `c` is the value of `u` in an assignment with the cheapest star, the first such value. */
  ghost predicate Cheapest(s: State, u: nat, c: nat) {
    exists y :: Valid(s, y) && At(y, u) == c && CheapestFirst(s, u, y)
  }

  /** The run goes on from `t`. */
  ghost predicate GoesOn(s: State, policy: Search.Policy, t: State)
    requires Good(s)
  {
    Good(t) && RnRun(s, policy) == RnRun(t, policy)
  }

  /** Where no node has fewer than three edges, the foremost node under the policy is fixed to its first
      cheapest value. */
  lemma FixesForemost(s: State, policy: Search.Policy) returns (u: nat, c: nat)
    requires Good(s) && ActiveNodes(s) > 0 && FirstReducible(s, 0) == None
    ensures Foremost(s, policy, u) && Cheapest(s, u, c) && c < |s.nodes[u].unary| && GraphOk(s)
    ensures GoesOn(s, policy, Condition(s, u, c, RN))
  {
    Search.SelectSome(s, policy);
    u := Search.Select(s, policy).value;
    SelectedFirst(s, policy, u);
    ChoiceIsFirstLeast(s, u);
    c := Heuristic.RnChoice(s, u);
    RnStep(s, u, c);
    assert NodeOk(s.nodes[u], s.stride);
  }

  /** Otherwise the first node with fewer than three edges is eliminated exactly, or the run fails with
      it. */
  lemma ReducesFirst(s: State, policy: Search.Policy) returns (u: nat)
    requires Good(s) && FirstReducible(s, 0).Some?
    ensures u < |s.nodes| && s.nodes[u].active && |EdgesAt(s, u)| <= 2 && |Incident(s, u)| <= 2
    ensures forall i {:trigger s.nodes[i]} :: 0 <= i < u && s.nodes[i].active ==> |EdgesAt(s, i)| > 2
    ensures ReduceNode(s, u).Full? ==> RnRun(s, policy) == Full
    ensures ReduceNode(s, u).Done? ==> GoesOn(s, policy, ReduceNode(s, u).state)
  {
    u := FirstReducible(s, 0).value;
    IncidentCount(s, u, |s.edges|);
    forall i {:trigger s.nodes[i]} | 0 <= i < u && s.nodes[i].active ensures |EdgesAt(s, i)| > 2 {
      NoneReducibleBefore(s, 0, i);
      IncidentCount(s, i, |s.edges|);
    }
    ReduceNodeStep(s, u);
  }
}
