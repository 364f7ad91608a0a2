/** Building a problem (software/pbqp/pbqp.cpp: pbqp_max_finite_cost, pbqp_add_node,
    pbqp_add_edge). The input range they enforce is what makes saturating sums exact. */
module Building {
  import opened Basics
  import opened Costs
  import opened Graphs
  import opened Reductions
  import opened ReductionTwo
  import opened Runs
  import opened Problems
  import opened Evaluation

  /** The largest finite cost accepted by a problem with these capacities. */
  function MaxFiniteCost(nodeCapacity: nat, edgeCapacity: nat): nat {
    if nodeCapacity + edgeCapacity == 0 then 0 else (INF - 1) / (nodeCapacity + edgeCapacity)
  }

  /** A cost that may appear in a problem of so many terms: infinite, or so small that as many costs of
      its size add up to less than infinity. */
  predicate Acceptable(cost: int, terms: nat) {
    cost == INF || (-INF < cost * terms < INF && (terms == 0 ==> cost == 0))
  }

  /** The range that the code computes by a division is this one. */
  lemma RangeExactly(cost: int, nodeCapacity: nat, edgeCapacity: nat)
    ensures Bounded(cost, MaxFiniteCost(nodeCapacity, edgeCapacity)) <==> Acceptable(cost, nodeCapacity + edgeCapacity)
  {
    var terms := nodeCapacity + edgeCapacity;
    if terms > 0 {
      QuotientExactly(cost, terms);
      QuotientExactly(-cost, terms);
    }
  }

  lemma QuotientExactly(cost: int, terms: nat)
    requires terms > 0
    ensures cost <= (INF - 1) / terms <==> cost * terms < INF
  {
    var m := (INF - 1) / terms;
    assert m * terms <= INF - 1 < (m + 1) * terms;
    if cost <= m {
      assert cost * terms <= m * terms;
    } else {
      assert cost * terms >= (m + 1) * terms;
    }
  }

  /** No larger range is safe: as many costs outside it as a problem has terms add up to infinity. */
  lemma {:induction false} RangeLargest(cost: int, terms: nat)
    requires 0 < cost < INF && !Acceptable(cost, terms) && terms > 0
    ensures Fold(seq(terms, i => cost)) == INF && ExtSum(seq(terms, i => cost)) == Fin(cost * terms)
  {
    EqualCosts(cost, terms);
  }

  lemma {:induction false} EqualCosts(cost: int, n: nat)
    requires 0 < cost < INF
    ensures Fold(seq(n, i => cost)) == if cost * n < INF then cost * n else INF
    ensures ExtSum(seq(n, i => cost)) == Fin(cost * n)
  {
    if n > 0 {
      EqualCosts(cost, n - 1);
      assert seq(n, i => cost)[..n - 1] == seq(n - 1, i => cost);
      assert cost * n == cost * (n - 1) + cost;
    }
  }

  ghost predicate InRange(s: State, maximum: nat) {
    && (forall i {:trigger UnaryFits(s.nodes[i], maximum)} ::
          0 <= i < |s.nodes| ==> UnaryFits(s.nodes[i], maximum))
    && (forall k {:trigger MatrixFits(s, s.edges[k], maximum)} ::
          0 <= k < |s.edges| ==> MatrixFits(s, s.edges[k], maximum))
  }

  /** What the building calls keep: a well-formed graph, nothing reduced, all costs in range. */
  ghost predicate Built(s: State, nodeCapacity: nat) {
    && Fresh(s) && AllActive(s) && |s.nodes| <= nodeCapacity
    && InRange(s, MaxFiniteCost(nodeCapacity, |s.edges|))
    && forall k :: 0 <= k < |s.edges| ==> Square(s.edges[k].cost, s.stride)
  }

  /** A new problem is empty, with every edge slot free. */
  lemma EmptyIsBuilt(s: State, nodeCapacity: nat)
    requires s.nodes == [] && s.edgeCount == 0 && s.offset == 0 && s.order == []
    requires forall k :: 0 <= k < |s.edges| ==> !s.edges[k].active && Square(s.edges[k].cost, s.stride)
    ensures Built(s, nodeCapacity)
  {
    NoFlags(s.edges);
  }

  lemma {:induction false} NoFlags(edges: seq<Edge>)
    requires forall k :: 0 <= k < |edges| ==> !edges[k].active
    ensures Total(EdgeFlags(edges)) == 0
  {
    if |edges| > 0 {
      NoFlags(edges[..|edges| - 1]);
      assert EdgeFlags(edges)[..|edges| - 1] == EdgeFlags(edges[..|edges| - 1]);
    }
  }

  method NewProblem(nodeCapacity: nat, edgeCapacity: nat, domainCapacity: nat) returns (p: Problem)
    ensures fresh(p) && p.nodeCapacity == nodeCapacity && p.domainCapacity == domainCapacity
    ensures |p.edges| == edgeCapacity && p.nodes == [] && Built(p.Graph(), nodeCapacity)
  {
    p := new Problem.Empty(nodeCapacity, edgeCapacity, domainCapacity);
    EmptyIsBuilt(p.Graph(), nodeCapacity);
  }

  function Uniform(n: nat, budget: nat): (budgets: seq<nat>)
    ensures |budgets| == n && forall i :: 0 <= i < n ==> budgets[i] == budget
  {
    seq(n, i => budget)
  }

  lemma {:induction false} UniformTotal(n: nat, budget: nat)
    ensures Total(Uniform(n, budget)) == n * budget
  {
    if n > 0 {
      UniformTotal(n - 1, budget);
      assert Uniform(n, budget)[..n - 1] == Uniform(n - 1, budget);
    }
  }

  lemma MaxFiniteFits(nodes: nat, nodeCapacity: nat, edges: nat)
    requires nodes <= nodeCapacity
    ensures var m := MaxFiniteCost(nodeCapacity, edges); nodes * m + edges * m < INF
  {
    var m := MaxFiniteCost(nodeCapacity, edges);
    if nodeCapacity + edges > 0 {
      assert m * (nodeCapacity + edges) <= INF - 1;
      assert nodes * m <= nodeCapacity * m;
    }
  }

  /** The safe range: a problem within the accepted range can be solved without any addition
      saturating. Every reduction and conditioning step then keeps this. */
  lemma BuiltIsGood(s: State, nodeCapacity: nat)
    requires Built(s, nodeCapacity)
    ensures Good(s)
  {
    var m := MaxFiniteCost(nodeCapacity, |s.edges|);
    var w := Budget(Uniform(|s.nodes|, m), Uniform(|s.edges|, m), 0);
    UniformTotal(|s.nodes|, m);
    UniformTotal(|s.edges|, m);
    MaxFiniteFits(|s.nodes|, nodeCapacity, |s.edges|);
    forall i | 0 <= i < |s.nodes| ensures UnaryFits(s.nodes[i], w.node[i]) {
      assert UnaryFits(s.nodes[i], m);
    }
    forall k | 0 <= k < |s.edges| ensures MatrixFits(s, s.edges[k], w.edge[k]) {
      assert MatrixFits(s, s.edges[k], m);
    }
    assert Fits(s, w);
  }

  // -------------------------------------------------------------------- nodes

  function NewNode(unary: seq<int>): Node {
    Node(true, |unary|, unary, Unreduced, 0, 0, [])
  }

  method AddNode(p: Problem, unary: seq<int>) returns (status: Status)
    modifies p
    ensures status == Status.ArgumentError <==> |unary| == 0 || |unary| > p.domainCapacity
    ensures status == Status.CapacityError <==>
              1 <= |unary| <= p.domainCapacity && |old(p.nodes)| == p.nodeCapacity
    ensures status == Status.Ok <==>
              && 1 <= |unary| <= p.domainCapacity && |old(p.nodes)| != p.nodeCapacity
              && forall v {:trigger unary[v]} :: 0 <= v < |unary| ==>
                   Acceptable(unary[v], p.nodeCapacity + |old(p.edges)|)
    ensures status in {Status.Ok, Status.ArgumentError, Status.CapacityError, Status.CostRangeError}
    ensures p.Graph() == if status != Status.Ok then old(p.Graph())
                         else old(p.Graph()).(nodes := old(p.nodes) + [NewNode(unary)])
    ensures old(Built(p.Graph(), p.nodeCapacity)) ==> Built(p.Graph(), p.nodeCapacity)
  {
    if |unary| == 0 || |unary| > p.domainCapacity {
      return Status.ArgumentError;
    }
    if |p.nodes| == p.nodeCapacity {
      return Status.CapacityError;
    }
    var maximum := MaxFiniteCost(p.nodeCapacity, |p.edges|);
    forall v | 0 <= v < |unary|
      ensures Bounded(unary[v], maximum) <==> Acceptable(unary[v], p.nodeCapacity + |p.edges|)
    {
      RangeExactly(unary[v], p.nodeCapacity, |p.edges|);
    }
    for v := 0 to |unary|
      invariant forall i :: 0 <= i < v ==> Bounded(unary[i], maximum)
    {
      if !Bounded(unary[v], maximum) {
        return Status.CostRangeError;
      }
    }
    ghost var s := p.Graph();
    p.nodes := p.nodes + [NewNode(unary)];
    status := Status.Ok;
    if Built(s, p.nodeCapacity) {
      NodeAdded(s, unary, p.nodeCapacity);
    }
  }

  lemma NodeAdded(s: State, unary: seq<int>, nodeCapacity: nat)
    requires Built(s, nodeCapacity) && |s.nodes| < nodeCapacity && 1 <= |unary| <= s.stride
    requires forall v :: 0 <= v < |unary| ==>
               Bounded(unary[v], MaxFiniteCost(nodeCapacity, |s.edges|))
    ensures Built(s.(nodes := s.nodes + [NewNode(unary)]), nodeCapacity)
  {
    var t := s.(nodes := s.nodes + [NewNode(unary)]);
    var m := MaxFiniteCost(nodeCapacity, |s.edges|);
    forall k | 0 <= k < |t.edges| ensures EdgeOk(t, t.edges[k]) && MatrixFits(t, t.edges[k], m) {
      assert EdgeOk(s, s.edges[k]) && MatrixFits(s, s.edges[k], m);
    }
    forall i | 0 <= i < |t.nodes| ensures UnaryFits(t.nodes[i], m) {
      if i < |s.nodes| {
        assert UnaryFits(s.nodes[i], m);
      }
    }
    forall j, k | 0 <= j < |t.edges| && 0 <= k < |t.edges| && j != k
      ensures Apart(t.edges[j], t.edges[k])
    {
      assert Apart(s.edges[j], s.edges[k]);
    }
  }

  // -------------------------------------------------------------------- edges

  /** The given row-major costs, for value `i` of the first node and `j` of the second. */
  function Given(costs: seq<int>, columns: nat, i: nat, j: nat): int {
    var slot := i * columns + j;
    if slot < |costs| then costs[slot] else 0
  }

  /** Every entry is among the given costs, rows one after another. */
  lemma RowMajor(costs: seq<int>, rows: nat, columns: nat, i: nat, j: nat)
    requires rows * columns <= |costs| && i < rows && j < columns
    ensures i * columns + j < rows * columns && Given(costs, columns, i, j) == costs[i * columns + j]
  {
    assert i * columns + columns == (i + 1) * columns <= rows * columns;
  }

  ghost predicate GivenAcceptable(costs: seq<int>, rows: nat, columns: nat, terms: nat) {
    forall i: nat, j: nat :: i < rows && j < columns ==> Acceptable(Given(costs, columns, i, j), terms)
  }

  lemma GivenExactly(costs: seq<int>, rows: nat, columns: nat, nodeCapacity: nat, edgeCapacity: nat)
    ensures GivenInRange(costs, rows, columns, MaxFiniteCost(nodeCapacity, edgeCapacity))
            <==> GivenAcceptable(costs, rows, columns, nodeCapacity + edgeCapacity)
  {
    var maximum, terms := MaxFiniteCost(nodeCapacity, edgeCapacity), nodeCapacity + edgeCapacity;
    forall i: nat, j: nat | i < rows && j < columns
      ensures Bounded(Given(costs, columns, i, j), maximum) <==> Acceptable(Given(costs, columns, i, j), terms)
    {
      RangeExactly(Given(costs, columns, i, j), nodeCapacity, edgeCapacity);
    }
  }

  ghost predicate GivenInRange(costs: seq<int>, rows: nat, columns: nat, maximum: nat) {
    forall i: nat, j: nat :: i < rows && j < columns ==> Bounded(Given(costs, columns, i, j), maximum)
  }

  /** `after` holds the given costs in its upper left block and `before` elsewhere. */
  ghost predicate Stored(before: seq<seq<int>>, after: seq<seq<int>>, costs: seq<int>,
                         rows: nat, columns: nat)
  {
    && |after| == |before|
    && forall i: nat :: i < |after| ==>
         && |after[i]| == |before[i]|
         && forall j: nat :: j < |after[i]| ==>
              after[i][j] == if i < rows && j < columns then Given(costs, columns, i, j) else before[i][j]
  }

  method CostsInRange(costs: seq<int>, rows: nat, columns: nat, maximum: nat) returns (ok: bool)
    requires rows * columns <= |costs|
    ensures ok <==> GivenInRange(costs, rows, columns, maximum)
  {
    for i := 0 to rows
      invariant GivenInRange(costs, i, columns, maximum)
    {
      for j := 0 to columns
        invariant forall c: nat :: c < j ==> Bounded(Given(costs, columns, i, c), maximum)
      {
        if !Bounded(Given(costs, columns, i, j), maximum) {
          return false;
        }
      }
    }
    ok := true;
  }

  /** One row of the matrix. */
  method StoreRow(row: seq<int>, costs: seq<int>, columns: nat, i: nat) returns (after: seq<int>)
    requires columns <= |row|
    ensures |after| == |row|
    ensures forall j: nat :: j < |row| ==>
              after[j] == if j < columns then Given(costs, columns, i, j) else row[j]
  {
    after := row;
    for j := 0 to columns
      invariant |after| == |row|
      invariant forall c: nat :: c < |row| ==>
                  after[c] == if c < j then Given(costs, columns, i, c) else row[c]
    {
      after := after[j := Given(costs, columns, i, j)];
    }
  }

  method StoreCosts(before: seq<seq<int>>, costs: seq<int>, rows: nat, columns: nat)
    returns (after: seq<seq<int>>)
    requires rows <= |before| && forall i :: 0 <= i < |before| ==> columns <= |before[i]|
    ensures Stored(before, after, costs, rows, columns)
  {
    after := before;
    for i := 0 to rows
      invariant |after| == |before|
      invariant forall r: nat :: i <= r < |before| ==> after[r] == before[r]
      invariant Stored(before, after, costs, i, columns)
    {
      var row := StoreRow(after[i], costs, columns, i);
      after := after[i := row];
    }
  }

  /** Rejects bad endpoints, a pair already joined and costs out of range, in this order; then
      claims the first free slot. */
  method AddEdge(p: Problem, first: nat, second: nat, costs: seq<int>) returns (status: Status)
    requires forall i :: 0 <= i < |p.nodes| ==> p.nodes[i].domain <= p.domainCapacity
    requires forall k :: 0 <= k < |p.edges| ==> Square(p.edges[k].cost, p.domainCapacity)
    requires first < |p.nodes| && second < |p.nodes| ==>
               p.nodes[first].domain * p.nodes[second].domain <= |costs|
    modifies p
    ensures status ==
              if first >= |old(p.nodes)| || second >= |old(p.nodes)| || first == second
                 || FirstJoin(old(p.edges), first, second, 0).Some? then Status.ArgumentError
              else if !GivenAcceptable(costs, old(p.nodes)[first].domain, old(p.nodes)[second].domain,
                                       p.nodeCapacity + |old(p.edges)|)
              then Status.CostRangeError
              else if FirstFree(old(p.edges), 0).None? then Status.CapacityError
              else Status.Ok
    ensures status == Status.Ok ==>
              EdgeAdded(old(p.Graph()), p.Graph(), FirstFree(old(p.edges), 0).value, first, second, costs)
    ensures status != Status.Ok ==> p.Graph() == old(p.Graph())
    ensures old(Built(p.Graph(), p.nodeCapacity)) ==> Built(p.Graph(), p.nodeCapacity)
  {
    if first >= |p.nodes| || second >= |p.nodes| || first == second {
      return Status.ArgumentError;
    }
    var joined := p.FindEdge(first, second);
    if joined.Some? {
      return Status.ArgumentError;
    }
    var rows, columns := p.nodes[first].domain, p.nodes[second].domain;
    GivenExactly(costs, rows, columns, p.nodeCapacity, |p.edges|);
    var ok := CostsInRange(costs, rows, columns, MaxFiniteCost(p.nodeCapacity, |p.edges|));
    if !ok {
      return Status.CostRangeError;
    }
    for k := 0 to |p.edges|
      invariant p.Graph() == old(p.Graph()) && FirstFree(p.edges, 0) == FirstFree(p.edges, k)
    {
      if !p.edges[k].active {
        var cost := StoreCosts(p.edges[k].cost, costs, rows, columns);
        p.edges := p.edges[k := Edge(true, first, second, cost)];
        p.edgeCount := p.edgeCount + 1;
        if old(Built(p.Graph(), p.nodeCapacity)) {
          EdgeKeepsBuilt(old(p.Graph()), p.Graph(), k, first, second, costs, p.nodeCapacity);
        }
        return Status.Ok;
      }
    }
    status := Status.CapacityError;
  }

  ghost predicate EdgeAdded(s: State, t: State, k: nat, first: nat, second: nat, costs: seq<int>) {
    && first < |s.nodes| && second < |s.nodes| && k < |s.edges| && |t.edges| == |s.edges|
    && t == s.(edges := s.edges[k := Edge(true, first, second, t.edges[k].cost)],
               edgeCount := s.edgeCount + 1)
    && Stored(s.edges[k].cost, t.edges[k].cost, costs, s.nodes[first].domain, s.nodes[second].domain)
  }

  /** Adding an edge keeps the problem well formed and in range. */
  lemma EdgeKeepsBuilt(s: State, t: State, k: nat, first: nat, second: nat, costs: seq<int>,
                       nodeCapacity: nat)
    requires Built(s, nodeCapacity) && EdgeAdded(s, t, k, first, second, costs)
    requires !s.edges[k].active
    requires first != second && FirstJoin(s.edges, first, second, 0).None?
    requires GivenInRange(costs, s.nodes[first].domain, s.nodes[second].domain,
                          MaxFiniteCost(nodeCapacity, |s.edges|))
    ensures Built(t, nodeCapacity)
  {
    var m := MaxFiniteCost(nodeCapacity, |s.edges|);
    forall j | 0 <= j < |t.edges| ensures EdgeOk(t, t.edges[j]) && MatrixFits(t, t.edges[j], m) {
      assert EdgeOk(s, s.edges[j]) && MatrixFits(s, s.edges[j], m);
    }
    forall i, j | 0 <= i < |t.edges| && 0 <= j < |t.edges| && i != j
      ensures Apart(t.edges[i], t.edges[j])
    {
      assert Apart(s.edges[i], s.edges[j]);
    }
    forall i | 0 <= i < |t.nodes| ensures UnaryFits(t.nodes[i], m) {
      assert UnaryFits(s.nodes[i], m);
    }
    TotalUpdate(EdgeFlags(s.edges), k, 1);
    assert EdgeFlags(t.edges) == EdgeFlags(s.edges)[k := 1];
  }
}
