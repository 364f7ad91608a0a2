/** Exactly when a whole run runs out of edge slots (software/pbqp/pbqp.cpp: AddFillEdge, ReduceR2
    and the loops of Solve and SolveBranchAndReduce): only its first elimination of a linked node can
    fail, because every later one finds the slots freed by that one. */
module Blocking {
  import opened Basics
  import opened Costs
  import opened Graphs
  import opened Reductions
  import opened ReductionTwo
  import opened Conditioning
  import opened Runs
  import opened Search
  import opened Capacity

  /** The first active node with one or two edges. */
  function FirstLinked(s: State, from: nat): (u: Option<nat>)
    ensures u.Some? ==> from <= u.value < |s.nodes| && s.nodes[u.value].active && 1 <= |Incident(s, u.value)| <= 2
    decreases |s.nodes| - from
  {
    if from >= |s.nodes| then None
    else if s.nodes[from].active && 1 <= |Incident(s, from)| <= 2 then Some(from)
    else FirstLinked(s, from + 1)
  }

  lemma {:induction false} NoneLinkedBefore(s: State, from: nat, i: nat)
    requires from <= i < (if FirstLinked(s, from).Some? then FirstLinked(s, from).value else |s.nodes|)
    requires s.nodes[i].active
    ensures |Incident(s, i)| == 0 || |Incident(s, i)| > 2
    decreases |s.nodes| - from
  {
    if from < i {
      NoneLinkedBefore(s, from + 1, i);
    }
  }

  /** No edge joins the two neighbours of a node with two edges. */
  predicate Unjoined(s: State, u: nat)
    requires |Incident(s, u)| == 2
  {
    var k, l := Incident(s, u)[0], Incident(s, u)[1];
    k < |s.edges| && l < |s.edges| && FirstJoin(s.edges, Other(s.edges[k], u), Other(s.edges[l], u), 0).None?
  }

  /** Every slot is in use, and the first linked node has two neighbours that are not joined. */
  predicate Blocked(s: State) {
    && ActiveEdges(s) == |s.edges| && FirstLinked(s, 0).Some?
    && var u := FirstLinked(s, 0).value;
       |Incident(s, u)| == 2 && Unjoined(s, u)
  }

  // ---------------------------------------------------------------- freed slots

  lemma Spare(s: State, j: nat)
    requires j < |s.edges| && !s.edges[j].active
    ensures ActiveEdges(s) < |s.edges| && Room(s)
  {
    SomeFree(s.edges, |s.edges|);
    assert EdgeFlags(s.edges)[..|s.edges|] == EdgeFlags(s.edges);
  }

  /** Eliminating a linked node leaves a slot to spare. */
  lemma LinkedFrees(s: State, u: nat)
    requires Good(s) && u < |s.nodes| && s.nodes[u].active && 1 <= |Incident(s, u)| <= 2
    requires ReduceNode(s, u).Done?
    ensures Room(ReduceNode(s, u).state)
  {
    IncidentEndpoints(s, u);
    var k := Incident(s, u)[0];
    var t := ReduceNode(s, u).state;
    if |Incident(s, u)| == 2 {
      var l := Incident(s, u)[1];
      assert Incident(s, u) == [k, l];
      TwoIncident(s, u, k, l);
      var a, b := Other(s.edges[k], u), Other(s.edges[l], u);
      FillKeeps(s, u, k, l, FillSlot(s, a, b).value);
    }
    assert |t.edges| == |s.edges| && !t.edges[k].active;
    Spare(t, k);
  }

  /** Fixing a node with an edge leaves a slot to spare. */
  lemma ConditionFrees(s: State, u: nat, c: nat, kind: Kind)
    requires Good(s) && u < |s.nodes| && s.nodes[u].active && c < s.nodes[u].domain && |Incident(s, u)| > 0
    requires kind == RN || kind == Branch
    ensures Room(Condition(s, u, c, kind))
  {
    IncidentEndpoints(s, u);
    CondEdgesKeep(s, u, c, |s.edges|);
    var k := Incident(s, u)[0];
    assert !Touches(CondEdges(s, u, c, |s.edges|).edges[k], u);
    Spare(Condition(s, u, c, kind), k);
  }

  // ------------------------------------------------------------ the first linked node

  lemma {:induction false} LinkedAfter(s: State, from: nat)
    requires FirstReducible(s, from).Some? && |Incident(s, FirstReducible(s, from).value)| > 0
    ensures FirstLinked(s, from) == FirstReducible(s, from)
    decreases |s.nodes| - from
  {
    if !(s.nodes[from].active && |Incident(s, from)| <= 2) {
      LinkedAfter(s, from + 1);
    }
  }

  lemma {:induction false} NoneLinked(s: State, from: nat)
    requires FirstReducible(s, from).None?
    ensures FirstLinked(s, from).None?
    decreases |s.nodes| - from
  {
    if from < |s.nodes| {
      NoneLinked(s, from + 1);
    }
  }

  /** Eliminating an isolated node changes no link. */
  lemma {:induction false} LinkedKept(s: State, u: nat, from: nat)
    requires u < |s.nodes| && |Incident(s, u)| == 0
    ensures FirstLinked(ReduceR0(s, u), from) == FirstLinked(s, from)
    decreases |s.nodes| - from
  {
    if from < |s.nodes| {
      LinkedKept(s, u, from + 1);
      assert Incident(ReduceR0(s, u), from) == Incident(s, from);
    }
  }

  lemma BlockedKept(s: State, u: nat)
    requires u < |s.nodes| && |Incident(s, u)| == 0
    ensures Blocked(ReduceR0(s, u)) <==> Blocked(s)
  {
    LinkedKept(s, u, 0);
    var t := ReduceR0(s, u);
    if FirstLinked(s, 0).Some? {
      assert Incident(t, FirstLinked(s, 0).value) == Incident(s, FirstLinked(s, 0).value);
    }
  }

  /** The elimination of the first linked node fails exactly when the problem is blocked. */
  lemma FirstFails(s: State, u: nat)
    requires Good(s) && FirstLinked(s, 0) == Some(u)
    ensures ReduceNode(s, u) == Full <==> Blocked(s)
  {
    if |Incident(s, u)| == 2 {
      var k, l := Incident(s, u)[0], Incident(s, u)[1];
      assert Incident(s, u) == [k, l];
      FullExactly(s, u, k, l);
    }
  }

  // ------------------------------------------------------------------ whole runs

  /** A run of exact reductions fails exactly on blocked problems. */
  lemma {:induction false} ReduceAllFullExactly(s: State)
    requires Good(s)
    ensures ReduceAll(s) == Full <==> Blocked(s)
    decreases ActiveNodes(s)
  {
    var r := FirstReducible(s, 0);
    if r.None? {
      NoneLinked(s, 0);
    } else {
      var u := r.value;
      ReduceNodeStep(s, u);
      if |Incident(s, u)| == 0 {
        BlockedKept(s, u);
        ReduceAllFullExactly(ReduceR0(s, u));
      } else {
        LinkedAfter(s, 0);
        FirstFails(s, u);
        if ReduceNode(s, u).Done? {
          LinkedFrees(s, u);
          ReduceAllRoom(ReduceNode(s, u).state);
        }
      }
    }
  }

  lemma ChildrenFree(t: State, u: nat)
    requires Good(t) && u < |t.nodes| && t.nodes[u].active && |Incident(t, u)| > 0
    ensures forall v :: 0 <= v < |Search.Children(t, u)| ==> Room(Search.Children(t, u)[v])
  {
    forall v | 0 <= v < |Search.Children(t, u)| ensures Room(Search.Children(t, u)[v]) {
      ConditionFrees(t, u, v, Branch);
    }
  }

  /** Branching on a fully reduced problem never runs out of slots. */
  lemma CoreNeverFull(t: State, policy: Policy, best: int, prune: bool)
    requires Good(t) && FirstReducible(t, 0) == None
    ensures ExploreCore(t, policy, best, prune) != CapacityError
  {
    if ActiveNodes(t) != 0 {
      SelectSome(t, policy);
      var u := Select(t, policy).value;
      ChildrenStep(t, u);
      ChildrenFree(t, u);
      AnswersRoom(Search.Children(t, u), ActiveNodes(t), policy, best, prune);
    }
  }

  /** The search, pruned or not and under every incumbent, fails exactly on blocked problems. */
  lemma ExploreFullExactly(s: State, policy: Policy, best: int, prune: bool)
    requires Good(s)
    ensures Explore(s, policy, best, prune) == CapacityError <==> Blocked(s)
  {
    ReduceAllPreserves(s);
    ReduceAllFullExactly(s);
    if ReduceAll(s).Done? {
      CoreNeverFull(ReduceAll(s).state, policy, best, prune);
    }
  }
}
