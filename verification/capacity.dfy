/** Fill slots (software/pbqp/pbqp.cpp: AddFillEdge, ReduceR2; tools/pbqp_run.cpp): when a
    reduction run can, and cannot, run out of edge slots. */
module Capacity {
  import opened Basics
  import opened Costs
  import opened Graphs
  import opened Reductions
  import opened ReductionTwo
  import opened Conditioning
  import opened Runs
  import opened Search

  /** A slot to spare, or a slot for every pair of nodes. */
  ghost predicate Room(s: State) {
    ActiveEdges(s) < |s.edges| || 2 * |s.edges| >= |s.nodes| * (|s.nodes| - 1)
  }

  // ------------------------------------------------------------ counting pairs

  function Column(i: nat, j: nat): set<(nat, nat)> {
    if i == 0 then {} else Column(i - 1, j) + {(i - 1, j)}
  }

  /** All pairs (i, j) with i < j < n. */
  function Pairs(n: nat): set<(nat, nat)> {
    if n == 0 then {} else Pairs(n - 1) + Column(n - 1, n - 1)
  }

  lemma {:induction false} ColumnCount(i: nat, j: nat)
    ensures |Column(i, j)| == i
  {
    if i > 0 {
      ColumnCount(i - 1, j);
      ColumnMember(i - 1, j, (i - 1, j));
    }
  }

  lemma {:induction false} PairsMember(n: nat, p: (nat, nat))
    ensures p in Pairs(n) <==> p.0 < p.1 < n
  {
    if n > 0 {
      PairsMember(n - 1, p);
      ColumnMember(n - 1, n - 1, p);
    }
  }

  lemma {:induction false} ColumnMember(i: nat, j: nat, p: (nat, nat))
    ensures p in Column(i, j) <==> p.0 < i && p.1 == j
  {
    if i > 0 {
      ColumnMember(i - 1, j, p);
    }
  }

  lemma PairsApart(n: nat)
    ensures Pairs(n) * Column(n, n) == {}
  {
    if Pairs(n) * Column(n, n) != {} {
      var p :| p in Pairs(n) * Column(n, n);
      PairsMember(n, p);
      ColumnMember(n, n, p);
    }
  }

  lemma Triangle(n: int)
    ensures n * (n - 1) == (n - 1) * (n - 2) + 2 * (n - 1)
  {
  }

  lemma PairsStep(n: nat)
    requires n > 0
    ensures |Pairs(n)| == |Pairs(n - 1)| + (n - 1)
  {
    ColumnCount(n - 1, n - 1);
    PairsApart(n - 1);
  }

  lemma {:induction false} PairsCount(n: nat)
    ensures 2 * |Pairs(n)| == n * (n - 1)
  {
    if n == 0 {
      assert Pairs(0) == {};
    } else {
      PairsCount(n - 1);
      PairsStep(n);
      Triangle(n);
    }
  }

  function Key(a: nat, b: nat): (nat, nat) { if a < b then (a, b) else (b, a) }

  /** The node pairs joined by the first `k` slots. */
  function JoinedTo(edges: seq<Edge>, k: nat): set<(nat, nat)>
    requires k <= |edges|
  {
    if k == 0 then {}
    else if edges[k - 1].active
    then JoinedTo(edges, k - 1) + {Key(edges[k - 1].first, edges[k - 1].second)}
    else JoinedTo(edges, k - 1)
  }

  lemma {:induction false} JoinedMember(edges: seq<Edge>, k: nat, p: (nat, nat))
    requires k <= |edges|
    ensures p in JoinedTo(edges, k) <==>
              exists j :: 0 <= j < k && edges[j].active && Key(edges[j].first, edges[j].second) == p
  {
    if k > 0 {
      JoinedMember(edges, k - 1, p);
    }
  }

  /** Edges of a well-formed graph are as many as the pairs they join. */
  lemma {:induction false} JoinedCount(s: State, k: nat)
    requires GraphOk(s) && k <= |s.edges|
    ensures |JoinedTo(s.edges, k)| == Total(EdgeFlags(s.edges)[..k])
  {
    if k > 0 {
      JoinedCount(s, k - 1);
      assert EdgeFlags(s.edges)[..k][..k - 1] == EdgeFlags(s.edges)[..k - 1];
      var e := s.edges[k - 1];
      if e.active {
        JoinedMember(s.edges, k - 1, Key(e.first, e.second));
        forall j | 0 <= j < k - 1 && s.edges[j].active
          ensures Key(s.edges[j].first, s.edges[j].second) != Key(e.first, e.second)
        {
          assert Apart(s.edges[j], e);
        }
      }
    }
  }

  lemma JoinedWithin(s: State, p: (nat, nat))
    requires GraphOk(s) && p in JoinedTo(s.edges, |s.edges|)
    ensures p in Pairs(|s.nodes|)
  {
    JoinedMember(s.edges, |s.edges|, p);
    var j :| 0 <= j < |s.edges| && s.edges[j].active && Key(s.edges[j].first, s.edges[j].second) == p;
    assert EdgeOk(s, s.edges[j]);
    PairsMember(|s.nodes|, p);
  }

  /** If some pair is not joined, there are fewer edges than pairs. */
  lemma UnjoinedPair(s: State, a: nat, b: nat)
    requires GraphOk(s) && a < |s.nodes| && b < |s.nodes| && a != b
    requires forall k :: 0 <= k < |s.edges| ==> !Joins(s.edges[k], a, b)
    ensures 2 * ActiveEdges(s) < |s.nodes| * (|s.nodes| - 1)
  {
    var all, joined := Pairs(|s.nodes|), JoinedTo(s.edges, |s.edges|);
    PairsCount(|s.nodes|);
    JoinedCount(s, |s.edges|);
    assert EdgeFlags(s.edges)[..|s.edges|] == EdgeFlags(s.edges);
    JoinedMember(s.edges, |s.edges|, Key(a, b));
    PairsMember(|s.nodes|, Key(a, b));
    assert Key(a, b) in all && Key(a, b) !in joined;
    forall p | p in joined ensures p in all - {Key(a, b)} {
      JoinedWithin(s, p);
    }
    SubsetSize(joined, all - {Key(a, b)});
  }

  lemma {:induction false} SubsetSize<T>(small: set<T>, large: set<T>)
    requires small <= large
    ensures |small| <= |large|
  {
    if small != {} {
      var x :| x in small;
      SubsetSize(small - {x}, large - {x});
    }
  }

  lemma {:induction false} AllSlotsActive(edges: seq<Edge>, k: nat)
    requires k <= |edges| && forall j :: 0 <= j < k ==> edges[j].active
    ensures Total(EdgeFlags(edges)[..k]) == k
  {
    if k > 0 {
      AllSlotsActive(edges, k - 1);
      assert EdgeFlags(edges)[..k][..k - 1] == EdgeFlags(edges)[..k - 1];
    }
  }

  lemma {:induction false} SomeFree(edges: seq<Edge>, k: nat)
    requires k <= |edges| && exists j :: 0 <= j < k && !edges[j].active
    ensures Total(EdgeFlags(edges)[..k]) < k
  {
    assert EdgeFlags(edges)[..k][..k - 1] == EdgeFlags(edges)[..k - 1];
    if edges[k - 1].active {
      SomeFree(edges, k - 1);
    } else {
      AtMost(edges, k - 1);
    }
  }

  lemma {:induction false} AtMost(edges: seq<Edge>, k: nat)
    requires k <= |edges|
    ensures Total(EdgeFlags(edges)[..k]) <= k
  {
    if k > 0 {
      AtMost(edges, k - 1);
      assert EdgeFlags(edges)[..k][..k - 1] == EdgeFlags(edges)[..k - 1];
    }
  }

  // -------------------------------------------------------- when R2 fails

  /** A degree-two elimination runs out of slots exactly when the two neighbours are not
      joined and every slot is in use. */
  lemma FullExactly(s: State, u: nat, k: nat, l: nat)
    requires GraphOk(s) && u < |s.nodes| && Incident(s, u) == [k, l]
    ensures k < |s.edges| && l < |s.edges|
    ensures Other(s.edges[k], u) < |s.nodes| && Other(s.edges[l], u) < |s.nodes|
    ensures ReduceR2(s, u, k, l).None? <==>
              && ActiveEdges(s) == |s.edges|
              && FirstJoin(s.edges, Other(s.edges[k], u), Other(s.edges[l], u), 0).None?
  {
    TwoIncident(s, u, k, l);
    assert EdgeFlags(s.edges)[..|s.edges|] == EdgeFlags(s.edges);
    var free := FirstFree(s.edges, 0);
    if free.None? {
      AllSlotsActive(s.edges, |s.edges|);
    } else {
      SomeFree(s.edges, |s.edges|);
    }
  }

  /** With room, a fill slot is always found. */
  lemma RoomForFill(s: State, u: nat, k: nat, l: nat)
    requires GraphOk(s) && Room(s) && u < |s.nodes| && Incident(s, u) == [k, l]
    ensures k < |s.edges| && l < |s.edges|
    ensures Other(s.edges[k], u) < |s.nodes| && Other(s.edges[l], u) < |s.nodes|
    ensures ReduceR2(s, u, k, l).Some?
  {
    FullExactly(s, u, k, l);
    TwoIncident(s, u, k, l);
    var a, b := Other(s.edges[k], u), Other(s.edges[l], u);
    if FirstJoin(s.edges, a, b, 0).None? {
      UnjoinedPair(s, a, b);
    }
  }

  // ------------------------------------------------------- room is never lost

  lemma RoomKept(s: State, t: State)
    requires Room(s) && |t.nodes| == |s.nodes| && |t.edges| == |s.edges|
    requires ActiveEdges(t) <= ActiveEdges(s)
    ensures Room(t)
  {
  }

  /** No reduction increases the number of active edges, and with room none fails. */
  lemma ReduceNodeRoom(s: State, u: nat)
    requires Good(s) && Room(s) && u < |s.nodes| && s.nodes[u].active && |Incident(s, u)| <= 2
    ensures ReduceNode(s, u).Done?
    ensures Room(ReduceNode(s, u).state)
  {
    var incident := Incident(s, u);
    if |incident| == 2 {
      assert incident == [incident[0], incident[1]];
      RoomForFill(s, u, incident[0], incident[1]);
    }
    ReduceNodeStep(s, u);
    var t := ReduceNode(s, u).state;
    EdgeCountFalls(s, u);
    RoomKept(s, t);
  }

  lemma EdgeCountFalls(s: State, u: nat)
    requires Good(s) && u < |s.nodes| && s.nodes[u].active && |Incident(s, u)| <= 2
    requires ReduceNode(s, u).Done?
    ensures ReduceNode(s, u).state.edgeCount <= s.edgeCount
  {
    IncidentEndpoints(s, u);
    var incident := Incident(s, u);
    if |incident| == 2 {
      var k, l := incident[0], incident[1];
      assert incident == [k, l];
      TwoIncident(s, u, k, l);
      var a, b := Other(s.edges[k], u), Other(s.edges[l], u);
      var f := FillSlot(s, a, b).value;
      FillKeeps(s, u, k, l, f);
      R2Count(WithFill(s, f, a, b), u, k, l, f);
    }
  }

  lemma {:induction false} ReduceAllRoom(s: State)
    requires Good(s) && Room(s)
    ensures ReduceAll(s).Done? && Room(ReduceAll(s).state)
    decreases ActiveNodes(s)
  {
    var u := FirstReducible(s, 0);
    if u.Some? {
      ReduceNodeStep(s, u.value);
      ReduceNodeRoom(s, u.value);
      ReduceAllRoom(ReduceNode(s, u.value).state);
    }
  }

  lemma ChildrenRoom(t: State, u: nat)
    requires Good(t) && Room(t) && u < |t.nodes| && t.nodes[u].active
    ensures forall v :: 0 <= v < |Children(t, u)| ==> Room(Children(t, u)[v])
  {
    forall v | 0 <= v < |Children(t, u)| ensures Room(Children(t, u)[v]) {
      ConditionStructure(t, u, v, Branch);
      RoomKept(t, Children(t, u)[v]);
    }
  }

  /** With room, neither the pruned nor the plain search ever fails. */
  lemma {:induction false} ExploreRoom(s: State, policy: Policy, best: int, prune: bool)
    requires Good(s) && Room(s)
    ensures Explore(s, policy, best, prune) != CapacityError
    decreases ActiveNodes(s), 2
  {
    ReduceAllPreserves(s);
    ReduceAllRoom(s);
    CoreRoom(ReduceAll(s).state, policy, best, prune);
  }

  lemma {:induction false} CoreRoom(t: State, policy: Policy, best: int, prune: bool)
    requires Good(t) && Room(t)
    ensures ExploreCore(t, policy, best, prune) != CapacityError
    decreases ActiveNodes(t), 1
  {
    if ActiveNodes(t) != 0 {
      SelectSome(t, policy);
      var u := Select(t, policy).value;
      ChildrenStep(t, u);
      ChildrenRoom(t, u);
      AnswersRoom(Children(t, u), ActiveNodes(t), policy, best, prune);
    }
  }

  lemma {:induction false} AnswersRoom(children: seq<State>, size: nat, policy: Policy, best: int,
                                       prune: bool)
    requires Brood(children, size)
    requires forall v :: 0 <= v < |children| ==> Room(children[v])
    ensures Sweep(Answers(children, size, policy, prune), |children|, best, prune) != Stuck
    decreases size, 0
  {
    var answer := Answers(children, size, policy, prune);
    forall v: nat, limit: int | v < |children| ensures answer(v, limit) != CapacityError {
      ExploreRoom(children[v], policy, limit, prune);
    }
    SweepRoom(answer, |children|, best, prune);
  }

  lemma {:induction false} SweepRoom(answer: (nat, int) --> Outcome, v: nat, best: int, prune: bool)
    requires forall i: nat, limit: int :: i < v ==> answer.requires(i, limit)
    requires forall i: nat, limit: int :: i < v ==> answer(i, limit) != CapacityError
    ensures Sweep(answer, v, best, prune) != Stuck
  {
    if v > 0 {
      SweepRoom(answer, v - 1, best, prune);
    }
  }

  // ------------------------------------------------------------ a run without room

  function One(kind: Kind): Node { Node(true, 1, [0], kind, 0, 0, []) }

  /** A path through node 0 that uses every edge slot. */
  function FullPath(): State {
    State(1, [One(Unreduced), One(Unreduced), One(Unreduced)],
          [Edge(true, 0, 1, [[0]]), Edge(true, 0, 2, [[0]])], 2, 0, [])
  }

  lemma FullPathGood()
    ensures Good(FullPath())
  {
    FullPathGraph();
    FullPathFits();
  }

  lemma FullPathGraph()
    ensures GraphOk(FullPath()) && OrderOk(FullPath()) && ActiveEdges(FullPath()) == 2
  {
    var s := FullPath();
    assert EdgeFlags(s.edges) == [1, 1];
    TotalTwo(1, 1);
  }

  lemma {:induction false} ZeroTotal(budgets: seq<nat>)
    requires forall i :: 0 <= i < |budgets| ==> budgets[i] == 0
    ensures Total(budgets) == 0
  {
    if |budgets| > 0 {
      ZeroTotal(budgets[..|budgets| - 1]);
    }
  }

  lemma ZeroCostsSafe(s: State)
    requires s.offset == 0
    requires forall i {:trigger UnaryFits(s.nodes[i], 0)} :: 0 <= i < |s.nodes| ==> UnaryFits(s.nodes[i], 0)
    requires forall k {:trigger MatrixFits(s, s.edges[k], 0)} ::
               0 <= k < |s.edges| ==> MatrixFits(s, s.edges[k], 0)
    ensures Safe(s)
  {
    var w := Budget(seq(|s.nodes|, i => 0), seq(|s.edges|, k => 0), 0);
    ZeroTotal(w.node);
    ZeroTotal(w.edge);
    forall i | 0 <= i < |s.nodes| ensures UnaryFits(s.nodes[i], w.node[i]) {
      assert UnaryFits(s.nodes[i], 0);
    }
    forall k | 0 <= k < |s.edges| ensures MatrixFits(s, s.edges[k], w.edge[k]) {
      assert MatrixFits(s, s.edges[k], 0);
    }
    assert Fits(s, w);
  }

  lemma FullPathFits()
    ensures Safe(FullPath())
  {
    var s := FullPath();
    forall k | 0 <= k < 2 ensures MatrixFits(s, s.edges[k], 0) {
      assert s.edges[k].cost == [[0]];
    }
    ZeroCostsSafe(s);
  }

  lemma TotalOne(a: nat)
    ensures Total([a]) == a
  {
    assert [a][..0] == [];
  }

  lemma TotalTwo(a: nat, b: nat)
    ensures Total([a, b]) == a + b
  {
    assert [a, b][..1] == [a];
    TotalOne(a);
  }

  /** Without room the exact reductions can fail although the problem has a solution: the middle
      node of a path comes first, and its fill edge finds no free slot. */
  lemma FullPathFails()
    ensures Good(FullPath()) && !Room(FullPath()) && ReduceAll(FullPath()) == Full
  {
    FullPathGood();
    var s := FullPath();
    assert IncidentTo(s.edges, 0, 0) == [];
    assert IncidentTo(s.edges, 0, 1) == [0];
    assert Incident(s, 0) == [0, 1];
    assert FirstReducible(s, 0) == Some(0);
    FullExactly(s, 0, 0, 1);
    FullPathGraph();
    assert ReduceNode(s, 0) == Full;
  }

  /** Slots before the first free one are in use. */
  lemma {:induction false} NoneFreeBefore(edges: seq<Edge>, from: nat, k: nat)
    requires FirstFree(edges, from).Some? && from <= k < FirstFree(edges, from).value
    ensures edges[k].active
    decreases |edges| - from
  {
    if from < k {
      NoneFreeBefore(edges, from + 1, k);
    }
  }
}
