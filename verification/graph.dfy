/** The PBQP graph state and its meaning (software/pbqp/pbqp.h, software/pbqp/pbqp.cpp).

    `State` holds what a `pbqp_problem_t` holds. An assignment picks one value per node;
    its exact objective is the offset plus the chosen entry of every active node and edge. */
module Graphs {
  import opened Basics
  import opened Costs

  datatype Kind = Unreduced | R0 | R1 | R2 | RN | Branch

  /** `first`, `second` and `table` are the reconstruction record of an eliminated node. */
  datatype Node = Node(active: bool, domain: nat, unary: seq<int>,
                       kind: Kind, first: nat, second: nat, table: seq<nat>)

  /** `cost[i][j]` is the entry for value i of node `first` and value j of node `second`;
      a matrix is square with the problem's domain capacity as its side. */
  datatype Edge = Edge(active: bool, first: nat, second: nat, cost: seq<seq<int>>)

  /** One slot of `edges` per unit of edge capacity; `stride` is the domain capacity. */
  datatype State = State(stride: nat, nodes: seq<Node>, edges: seq<Edge>,
                         edgeCount: nat, offset: int, order: seq<nat>)

  type Assignment = seq<nat>

  // ---------------------------------------------------------------- structure

  predicate Touches(e: Edge, u: nat) {
    e.active && (e.first == u || e.second == u)
  }

  predicate Joins(e: Edge, u: nat, w: nat) {
    e.active && ((e.first == u && e.second == w) || (e.first == w && e.second == u))
  }

  predicate Apart(e: Edge, f: Edge) {
    e.active ==> !Joins(f, e.first, e.second)
  }

  function Other(e: Edge, u: nat): nat {
    if e.first == u then e.second else e.first
  }

  predicate Square(cost: seq<seq<int>>, side: nat) {
    |cost| == side && forall i :: 0 <= i < side ==> |cost[i]| == side
  }

  predicate NodeOk(n: Node, stride: nat) {
    1 <= n.domain <= stride && |n.unary| == n.domain
  }

  predicate EdgeOk(s: State, e: Edge) {
    e.active ==>
      && e.first < |s.nodes| && e.second < |s.nodes| && e.first != e.second
      && s.nodes[e.first].active && s.nodes[e.second].active
      && Square(e.cost, s.stride)
  }

  function ActiveFlags(nodes: seq<Node>): seq<nat> {
    seq(|nodes|, i requires 0 <= i < |nodes| => if nodes[i].active then 1 else 0)
  }

  function EdgeFlags(edges: seq<Edge>): seq<nat> {
    seq(|edges|, k requires 0 <= k < |edges| => if edges[k].active then 1 else 0)
  }

  function ActiveNodes(s: State): nat { Total(ActiveFlags(s.nodes)) }

  function ActiveEdges(s: State): nat { Total(EdgeFlags(s.edges)) }

  /** Active edges join two distinct active nodes, no pair twice, and are counted. */
  ghost predicate GraphOk(s: State) {
    && (forall i :: 0 <= i < |s.nodes| ==> NodeOk(s.nodes[i], s.stride))
    && (forall k {:trigger EdgeOk(s, s.edges[k])} :: 0 <= k < |s.edges| ==> EdgeOk(s, s.edges[k]))
    && (forall j, k {:trigger Apart(s.edges[j], s.edges[k])} ::
          0 <= j < |s.edges| && 0 <= k < |s.edges| && j != k ==> Apart(s.edges[j], s.edges[k]))
    && s.edgeCount == ActiveEdges(s)
  }

  /** The record of the p-th eliminated node consults only nodes eliminated after it,
      or never, and holds one legal choice for every combination of their values. */
  ghost predicate RecordOk(s: State, p: nat)
    requires p < |s.order| && s.order[p] < |s.nodes|
  {
    var n := s.nodes[s.order[p]];
    && (forall j :: 0 <= j < |n.table| ==> n.table[j] < n.domain)
    && match n.kind
       case Unreduced => false
       case R1 =>
         && n.first < |s.nodes| && n.first !in s.order[..p + 1]
         && |n.table| == s.nodes[n.first].domain
       case R2 =>
         && n.first < |s.nodes| && n.first !in s.order[..p + 1]
         && n.second < |s.nodes| && n.second !in s.order[..p + 1]
         && |n.table| == Offset(s.nodes[n.first].domain, s.nodes[n.second].domain)
       case _ => |n.table| == 1
  }

  /** The elimination order lists exactly the inactive nodes, each once. */
  ghost predicate OrderOk(s: State) {
    && (forall p :: 0 <= p < |s.order| ==>
          s.order[p] < |s.nodes| && !s.nodes[s.order[p]].active && RecordOk(s, p))
    && (forall p, q :: 0 <= p < q < |s.order| ==> s.order[p] != s.order[q])
    && (forall i {:trigger i in s.order} ::
          0 <= i < |s.nodes| && !s.nodes[i].active ==> i in s.order)
  }

  ghost predicate WF(s: State) { GraphOk(s) && OrderOk(s) }

  /** A problem as built by the API: nothing reduced yet. */
  ghost predicate Fresh(s: State) {
    && WF(s) && s.order == [] && s.offset == 0
  }

  // ------------------------------------------------------------------ meaning

  function At(x: Assignment, i: nat): nat { if i < |x| then x[i] else 0 }

  function UnaryAt(n: Node, v: nat): int {
    if n.active && v < |n.unary| then n.unary[v] else 0
  }

  function Entry(cost: seq<seq<int>>, i: nat, j: nat): int {
    if i < |cost| && j < |cost[i]| then cost[i][j] else 0
  }

  function EdgeAt(e: Edge, x: Assignment): int {
    if e.active then Entry(e.cost, At(x, e.first), At(x, e.second)) else 0
  }

  /** The entry for value `uv` of endpoint `u` and value `ov` of the other endpoint. */
  function CostAt(e: Edge, u: nat, uv: nat, ov: nat): int {
    if e.first == u then Entry(e.cost, uv, ov) else Entry(e.cost, ov, uv)
  }

  function NodeTerms(s: State, x: Assignment): seq<int> {
    seq(|s.nodes|, i requires 0 <= i < |s.nodes| => UnaryAt(s.nodes[i], At(x, i)))
  }

  function EdgeTerms(s: State, x: Assignment): seq<int> {
    seq(|s.edges|, k requires 0 <= k < |s.edges| => EdgeAt(s.edges[k], x))
  }

  /** The exact cost of an assignment. */
  function Objective(s: State, x: Assignment): Ext {
    Plus(ToExt(s.offset), Plus(ExtSum(NodeTerms(s, x)), ExtSum(EdgeTerms(s, x))))
  }

  ghost predicate Valid(s: State, x: Assignment) {
    |x| == |s.nodes| && forall i :: 0 <= i < |x| ==> x[i] < s.nodes[i].domain
  }

  /** The value an elimination record prescribes, given the other nodes' values. */
  function Choice(s: State, u: nat, x: Assignment): nat
    requires u < |s.nodes|
  {
    var n := s.nodes[u];
    var slot :=
      match n.kind
      case R1 => At(x, n.first)
      case R2 => Offset(At(x, n.first), if n.second < |s.nodes| then s.nodes[n.second].domain else 0)
                 + At(x, n.second)
      case _ => 0;
    if slot < |n.table| then n.table[slot] else 0
  }

  /** Every eliminated node carries the value its record prescribes. */
  ghost predicate Consistent(s: State, x: Assignment) {
    forall p :: 0 <= p < |s.order| && s.order[p] < |s.nodes| ==>
      At(x, s.order[p]) == Choice(s, s.order[p], x)
  }

  /** Only the values of active nodes matter. */
  lemma ObjectiveFrame(s: State, x: Assignment, y: Assignment)
    requires GraphOk(s)
    requires forall i :: 0 <= i < |s.nodes| && s.nodes[i].active ==> At(x, i) == At(y, i)
    ensures Objective(s, x) == Objective(s, y)
  {
    assert NodeTerms(s, x) == NodeTerms(s, y);
    forall k | 0 <= k < |s.edges| ensures EdgeTerms(s, x)[k] == EdgeTerms(s, y)[k] {
      assert EdgeOk(s, s.edges[k]);
    }
    assert EdgeTerms(s, x) == EdgeTerms(s, y);
  }

  // ------------------------------------------------------------- safe range

  /** How far from zero each unary vector, matrix and the offset may be. */
  datatype Budget = Budget(node: seq<nat>, edge: seq<nat>, offset: nat)

  function Spent(w: Budget): nat { Total(w.node) + Total(w.edge) + w.offset }

  ghost predicate UnaryFits(n: Node, budget: int) {
    n.active ==> forall v :: 0 <= v < |n.unary| ==> Bounded(n.unary[v], budget)
  }

  ghost predicate MatrixFits(s: State, e: Edge, budget: int) {
    e.active && e.first < |s.nodes| && e.second < |s.nodes| ==>
      forall i, j :: 0 <= i < s.nodes[e.first].domain && 0 <= j < s.nodes[e.second].domain ==>
        Bounded(Entry(e.cost, i, j), budget)
  }

  ghost predicate Fits(s: State, w: Budget) {
    && |w.node| == |s.nodes| && |w.edge| == |s.edges|
    && Bounded(s.offset, w.offset)
    && Spent(w) < INF
    && (forall i {:trigger UnaryFits(s.nodes[i], w.node[i])} ::
          0 <= i < |s.nodes| ==> UnaryFits(s.nodes[i], w.node[i]))
    && (forall k {:trigger MatrixFits(s, s.edges[k], w.edge[k])} ::
          0 <= k < |s.edges| ==> MatrixFits(s, s.edges[k], w.edge[k]))
  }

  /** Some distribution of the input range over the graph explains every finite cost in it,
      so no sum of distinct terms can reach INF or underflow. */
  ghost predicate Safe(s: State) { exists w :: Fits(s, w) }

  /** Terms of a valid assignment are within their budgets. */
  lemma TermsFit(s: State, w: Budget, x: Assignment)
    requires GraphOk(s) && Fits(s, w) && Valid(s, x)
    ensures forall i :: 0 <= i < |s.nodes| ==> Bounded(NodeTerms(s, x)[i], w.node[i])
    ensures forall k :: 0 <= k < |s.edges| ==> Bounded(EdgeTerms(s, x)[k], w.edge[k])
  {
    forall i | 0 <= i < |s.nodes| ensures Bounded(NodeTerms(s, x)[i], w.node[i]) {
      assert UnaryFits(s.nodes[i], w.node[i]);
    }
    forall k | 0 <= k < |s.edges| ensures Bounded(EdgeTerms(s, x)[k], w.edge[k]) {
      assert EdgeOk(s, s.edges[k]) && MatrixFits(s, s.edges[k], w.edge[k]);
    }
  }

  /** The left-to-right saturating sum over active nodes, then active edges. */
  function EvaluateCore(s: State, x: Assignment): int {
    Fold(NodeTerms(s, x) + EdgeTerms(s, x))
  }

  /** Evaluation with saturating additions is exact. */
  lemma EvaluateExact(s: State, x: Assignment)
    requires GraphOk(s) && Safe(s) && Valid(s, x)
    ensures ToExt(Add(s.offset, EvaluateCore(s, x))) == Objective(s, x)
    ensures s.offset == 0 ==> ToExt(EvaluateCore(s, x)) == Objective(s, x)
    ensures EvaluateCore(s, x) <= INF && Add(s.offset, EvaluateCore(s, x)) <= INF
  {
    var w :| Fits(s, w);
    TermsFit(s, w, x);
    TotalAppend(w.node, w.edge);
    FoldExact(NodeTerms(s, x) + EdgeTerms(s, x), w.node + w.edge);
    ExtSumAppend(NodeTerms(s, x), EdgeTerms(s, x));
    AddExact(s.offset, EvaluateCore(s, x), w.offset, Total(w.node) + Total(w.edge));
  }

  // ----------------------------------------------------------- edge queries

  /** Indices of the active edges at `u` among the first `k` slots, ascending. */
  function IncidentTo(edges: seq<Edge>, u: nat, k: nat): seq<nat>
    requires k <= |edges|
  {
    if k == 0 then []
    else
      var before := IncidentTo(edges, u, k - 1);
      if Touches(edges[k - 1], u) then before + [k - 1] else before
  }

  function Incident(s: State, u: nat): seq<nat> { IncidentTo(s.edges, u, |s.edges|) }

  lemma {:induction false} IncidentToMember(edges: seq<Edge>, u: nat, k: nat)
    requires k <= |edges|
    ensures forall j: nat :: j in IncidentTo(edges, u, k) <==> j < k && Touches(edges[j], u)
    ensures forall i, j :: 0 <= i < j < |IncidentTo(edges, u, k)| ==>
              IncidentTo(edges, u, k)[i] < IncidentTo(edges, u, k)[j]
    ensures |IncidentTo(edges, u, k)| <= k
  {
    if k > 0 {
      IncidentToMember(edges, u, k - 1);
      var before := IncidentTo(edges, u, k - 1);
      assert forall i :: 0 <= i < |before| ==> before[i] in before;
    }
  }

  lemma {:induction false} FlagsUpdate(nodes: seq<Node>, nodes': seq<Node>, u: nat)
    requires u < |nodes| == |nodes'| && nodes[u].active && !nodes'[u].active
    requires forall i :: 0 <= i < |nodes| && i != u ==> nodes'[i].active == nodes[i].active
    ensures Total(ActiveFlags(nodes')) == Total(ActiveFlags(nodes)) - 1
  {
    TotalUpdate(ActiveFlags(nodes), u, 0);
    assert ActiveFlags(nodes') == ActiveFlags(nodes)[u := 0];
  }

  lemma NoActiveNodes(s: State)
    requires ActiveNodes(s) == 0
    ensures forall i :: 0 <= i < |s.nodes| ==> !s.nodes[i].active
  {
    forall i | 0 <= i < |s.nodes| ensures !s.nodes[i].active {
      TotalMember(ActiveFlags(s.nodes), i);
    }
  }
}
