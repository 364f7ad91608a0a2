/** Fixing a node to one value (software/pbqp/pbqp.cpp: ConditionNode, ReduceRN): its unary
    cost moves to the offset and each of its edges becomes a slice added to the neighbour. */
module Conditioning {
  import opened Costs
  import opened Graphs
  import opened Reductions

  /** A unary vector plus the slice of edge `e` for value `c` of `u`. */
  function Sliced(unary: seq<int>, e: Edge, u: nat, c: nat): (sum: seq<int>)
    ensures |sum| == |unary|
  {
    seq(|unary|, j requires 0 <= j < |unary| => Add(unary[j], CostAt(e, u, c, j)))
  }

  /** Edge `k`, if it touches `u`, becomes the slice for value `c` on the neighbour. */
  function CondEdge(s: State, u: nat, c: nat, k: nat): State
    requires k < |s.edges|
  {
    var e := s.edges[k];
    var n := Other(e, u);
    if Touches(e, u) && n < |s.nodes| then
      s.(nodes := s.nodes[n := s.nodes[n].(unary := Sliced(s.nodes[n].unary, e, u, c))],
         edges := s.edges[k := e.(active := false)],
         edgeCount := if s.edgeCount > 0 then s.edgeCount - 1 else 0)
    else s
  }

  function CondEdges(s: State, u: nat, c: nat, k: nat): (t: State)
    requires k <= |s.edges|
    ensures |t.edges| == |s.edges| && |t.nodes| == |s.nodes|
  {
    if k == 0 then s else CondEdge(CondEdges(s, u, c, k - 1), u, c, k - 1)
  }

  function Condition(s: State, u: nat, c: nat, kind: Kind): State
    requires u < |s.nodes| && c < |s.nodes[u].unary|
  {
    var t := CondEdges(s, u, c, |s.edges|);
    t.(offset := Add(s.offset, s.nodes[u].unary[c]),
       nodes := t.nodes[u := t.nodes[u].(active := false, kind := kind, table := [c])],
       order := s.order + [u])
  }

  /** Same graph up to unary costs and deactivated edges. */
  ghost predicate Trimmed(s: State, t: State) {
    && t.stride == s.stride && t.offset == s.offset && t.order == s.order
    && |t.nodes| == |s.nodes| && |t.edges| == |s.edges|
    && (forall i :: 0 <= i < |s.nodes| ==>
          && t.nodes[i] == s.nodes[i].(unary := t.nodes[i].unary)
          && |t.nodes[i].unary| == |s.nodes[i].unary|)
    && (forall j :: 0 <= j < |s.edges| ==>
          t.edges[j] == s.edges[j] || t.edges[j] == s.edges[j].(active := false))
  }

  lemma CondEdgeGraph(s: State, u: nat, c: nat, k: nat)
    requires GraphOk(s) && k < |s.edges|
    ensures var t := CondEdge(s, u, c, k);
            && GraphOk(t) && Trimmed(s, t) && !Touches(t.edges[k], u)
            && ActiveEdges(t) <= ActiveEdges(s)
            && (forall j :: 0 <= j < |s.edges| && j != k ==> t.edges[j] == s.edges[j])
            && (u < |s.nodes| ==> t.nodes[u] == s.nodes[u])
  {
    assert EdgeOk(s, s.edges[k]);
    CondEdgeTrims(s, u, c, k);
    if Touches(s.edges[k], u) {
      CondEdgeEdges(s, u, c, k);
      EdgeFlagsDrop(s.edges, CondEdge(s, u, c, k).edges, k);
    }
  }

  lemma CondEdgeTrims(s: State, u: nat, c: nat, k: nat)
    requires GraphOk(s) && k < |s.edges| && EdgeOk(s, s.edges[k])
    ensures var t := CondEdge(s, u, c, k);
            && Trimmed(s, t) && !Touches(t.edges[k], u)
            && (forall j :: 0 <= j < |s.edges| && j != k ==> t.edges[j] == s.edges[j])
            && (u < |s.nodes| ==> t.nodes[u] == s.nodes[u])
  {
  }

  lemma CondEdgeEdges(s: State, u: nat, c: nat, k: nat)
    requires GraphOk(s) && k < |s.edges|
    ensures var t := CondEdge(s, u, c, k);
            && (forall j {:trigger EdgeOk(t, t.edges[j])} :: 0 <= j < |t.edges| ==> EdgeOk(t, t.edges[j]))
            && (forall i, j {:trigger Apart(t.edges[i], t.edges[j])} ::
                  0 <= i < |t.edges| && 0 <= j < |t.edges| && i != j ==> Apart(t.edges[i], t.edges[j]))
  {
    var t := CondEdge(s, u, c, k);
    forall j | 0 <= j < |t.edges| ensures EdgeOk(t, t.edges[j]) {
      assert EdgeOk(s, s.edges[j]);
    }
    forall i, j | 0 <= i < |t.edges| && 0 <= j < |t.edges| && i != j
      ensures Apart(t.edges[i], t.edges[j])
    {
      assert Apart(s.edges[i], s.edges[j]);
    }
  }

  function CondBudget(w: Budget, n: nat, k: nat): (w': Budget)
    requires n < |w.node| && k < |w.edge|
    ensures Spent(w') == Spent(w)
  {
    TotalUpdate(w.node, n, w.node[n] + w.edge[k]);
    TotalUpdate(w.edge, k, 0);
    w.(node := w.node[n := w.node[n] + w.edge[k]], edge := w.edge[k := 0])
  }

  /** The slice is added to the neighbour without saturation. */
  lemma CondSlice(s: State, w: Budget, u: nat, c: nat, k: nat, j: nat)
    requires GraphOk(s) && Fits(s, w) && u < |s.nodes| && c < s.nodes[u].domain
    requires k < |s.edges| && Touches(s.edges[k], u)
    requires Other(s.edges[k], u) < |s.nodes| && j < s.nodes[Other(s.edges[k], u)].domain
    ensures var n := Other(s.edges[k], u); var cost := CostAt(s.edges[k], u, c, j);
            && ToExt(Add(s.nodes[n].unary[j], cost)) == Plus(ToExt(s.nodes[n].unary[j]), ToExt(cost))
            && Bounded(Add(s.nodes[n].unary[j], cost), w.node[n] + w.edge[k])
  {
    var n := Other(s.edges[k], u);
    assert EdgeOk(s, s.edges[k]) && MatrixFits(s, s.edges[k], w.edge[k]);
    assert UnaryFits(s.nodes[n], w.node[n]);
    TotalMember(w.node, n);
    TotalMember(w.edge, k);
    AddExact(s.nodes[n].unary[j], CostAt(s.edges[k], u, c, j), w.node[n], w.edge[k]);
  }

  lemma CondEdgeFits(s: State, u: nat, c: nat, k: nat)
    requires GraphOk(s) && Safe(s) && u < |s.nodes| && c < s.nodes[u].domain && k < |s.edges|
    ensures Safe(CondEdge(s, u, c, k))
  {
    var t := CondEdge(s, u, c, k);
    assert EdgeOk(s, s.edges[k]);
    var w :| Fits(s, w);
    if Touches(s.edges[k], u) {
      var n := Other(s.edges[k], u);
      var w' := CondBudget(w, n, k);
      forall i | 0 <= i < |t.nodes| ensures UnaryFits(t.nodes[i], w'.node[i]) {
        assert UnaryFits(s.nodes[i], w.node[i]);
        if i == n {
          forall j | 0 <= j < s.nodes[n].domain ensures Bounded(t.nodes[n].unary[j], w'.node[n]) {
            CondSlice(s, w, u, c, k, j);
          }
        }
      }
      forall j | 0 <= j < |t.edges| ensures MatrixFits(t, t.edges[j], w'.edge[j]) {
        assert MatrixFits(s, s.edges[j], w.edge[j]);
      }
      assert Fits(t, w');
    }
  }

  lemma CondTerms(s: State, u: nat, c: nat, k: nat, x: Assignment)
    requires GraphOk(s) && Valid(s, x) && u < |s.nodes| && x[u] == c
    requires k < |s.edges| && Touches(s.edges[k], u) && Other(s.edges[k], u) < |s.nodes|
    ensures var t := CondEdge(s, u, c, k); var n := Other(s.edges[k], u);
            && |t.nodes[n].unary| == s.nodes[n].domain
            && NodeTerms(s, x)[n] == s.nodes[n].unary[x[n]]
            && NodeTerms(t, x)[n] == Add(s.nodes[n].unary[x[n]], CostAt(s.edges[k], u, c, x[n]))
            && NodeTerms(t, x)[n := 0] == NodeTerms(s, x)[n := 0]
            && EdgeTerms(s, x)[k] == CostAt(s.edges[k], u, c, x[n])
            && Moved(EdgeTerms(s, x), EdgeTerms(t, x), k, k)
  {
    assert EdgeOk(s, s.edges[k]);
  }

  lemma CondRegroup(offset: Ext, nodes: Ext, n: Ext, edges: Ext, k: Ext)
    ensures Plus(offset, Plus(Plus(n, nodes), Plus(edges, k)))
            == Plus(offset, Plus(Plus(Plus(n, k), nodes), edges))
  {
  }

  /** Turning one edge into a slice changes nothing for assignments that give `u` value `c`. */
  lemma CondEdgeObjective(s: State, u: nat, c: nat, k: nat, x: Assignment)
    requires GraphOk(s) && Safe(s) && Valid(s, x) && u < |s.nodes| && x[u] == c && k < |s.edges|
    ensures Objective(CondEdge(s, u, c, k), x) == Objective(s, x)
  {
    var t := CondEdge(s, u, c, k);
    assert EdgeOk(s, s.edges[k]);
    if Touches(s.edges[k], u) {
      var w :| Fits(s, w);
      var n := Other(s.edges[k], u);
      CondSlice(s, w, u, c, k, x[n]);
      CondTerms(s, u, c, k, x);
      ExtSumExtract(NodeTerms(s, x), n);
      ExtSumExtract(NodeTerms(t, x), n);
      DroppedSum(EdgeTerms(s, x), EdgeTerms(t, x), k);
      CondRegroup(ToExt(s.offset), ExtSum(NodeTerms(s, x)[n := 0]), ToExt(s.nodes[n].unary[x[n]]),
                  ExtSum(EdgeTerms(t, x)), ToExt(CostAt(s.edges[k], u, c, x[n])));
    }
  }

  lemma {:induction false} CondEdgesKeep(s: State, u: nat, c: nat, k: nat)
    requires GraphOk(s) && u < |s.nodes| && c < s.nodes[u].domain && k <= |s.edges|
    ensures var t := CondEdges(s, u, c, k);
            && GraphOk(t) && (Safe(s) ==> Safe(t)) && Trimmed(s, t) && t.nodes[u] == s.nodes[u]
            && ActiveEdges(t) <= ActiveEdges(s)
            && (forall j :: 0 <= j < k ==> !Touches(t.edges[j], u))
            && (forall j :: k <= j < |s.edges| ==> t.edges[j] == s.edges[j])
  {
    if k > 0 {
      CondEdgesKeep(s, u, c, k - 1);
      var t := CondEdges(s, u, c, k - 1);
      CondEdgeGraph(t, u, c, k - 1);
      if Safe(s) {
        CondEdgeFits(t, u, c, k - 1);
      }
    }
  }

  lemma {:induction false} CondEdgesObjective(s: State, u: nat, c: nat, k: nat, x: Assignment)
    returns (t: State)
    requires GraphOk(s) && Safe(s) && Valid(s, x) && u < |s.nodes| && x[u] == c && k <= |s.edges|
    ensures t == CondEdges(s, u, c, k)
    ensures Objective(t, x) == Objective(s, x)
    decreases k
  {
    if k == 0 {
      t := s;
    } else {
      var before := CondEdgesObjective(s, u, c, k - 1, x);
      CondEdgesValid(s, u, c, k - 1, x);
      t := CondEdgeKeeps(before, u, c, k - 1, x);
    }
  }

  lemma CondEdgeKeeps(s: State, u: nat, c: nat, k: nat, x: Assignment) returns (t: State)
    requires GraphOk(s) && Safe(s) && Valid(s, x) && u < |s.nodes| && x[u] == c && k < |s.edges|
    ensures t == CondEdge(s, u, c, k) && Objective(t, x) == Objective(s, x)
  {
    CondEdgeObjective(s, u, c, k, x);
    t := CondEdge(s, u, c, k);
  }

  lemma CondEdgesValid(s: State, u: nat, c: nat, k: nat, x: Assignment)
    requires GraphOk(s) && Safe(s) && Valid(s, x) && u < |s.nodes| && x[u] == c && k <= |s.edges|
    ensures var t := CondEdges(s, u, c, k); GraphOk(t) && Safe(t) && Valid(t, x)
  {
    CondEdgesKeep(s, u, c, k);
  }

  /** Taking the now isolated node out at value `c`. */
  lemma DetachObjective(t: State, r: State, u: nat, c: nat, x: Assignment)
    requires GraphOk(t) && Safe(t) && u < |t.nodes| && t.nodes[u].active && Valid(t, x) && x[u] == c
    requires |r.nodes| == |t.nodes| && r.edges == t.edges && !r.nodes[u].active
    requires r.offset == Add(t.offset, t.nodes[u].unary[c])
    requires forall i :: 0 <= i < |t.nodes| && i != u ==> r.nodes[i] == t.nodes[i]
    ensures Objective(r, x) == Objective(t, x)
  {
    var w :| Fits(t, w);
    assert UnaryFits(t.nodes[u], w.node[u]);
    TotalMember(w.node, u);
    AddExact(t.offset, t.nodes[u].unary[c], w.offset, w.node[u]);
    ExtSumExtract(NodeTerms(t, x), u);
    assert NodeTerms(r, x) == NodeTerms(t, x)[u := 0];
    assert EdgeTerms(r, x) == EdgeTerms(t, x);
    DetachRegroup(ToExt(t.offset), ToExt(t.nodes[u].unary[c]), ExtSum(NodeTerms(r, x)),
                  ExtSum(EdgeTerms(r, x)));
  }

  lemma DetachRegroup(offset: Ext, u: Ext, nodes: Ext, edges: Ext)
    ensures Plus(offset, Plus(Plus(u, nodes), edges)) == Plus(Plus(offset, u), Plus(nodes, edges))
  {
  }

  lemma DetachFits(t: State, r: State, u: nat, c: nat)
    requires GraphOk(t) && Safe(t) && u < |t.nodes| && t.nodes[u].active && c < t.nodes[u].domain
    requires |r.nodes| == |t.nodes| && r.edges == t.edges && !r.nodes[u].active
    requires r.offset == Add(t.offset, t.nodes[u].unary[c]) && r.nodes[u].domain == t.nodes[u].domain
    requires forall i :: 0 <= i < |t.nodes| && i != u ==> r.nodes[i] == t.nodes[i]
    ensures Safe(r)
  {
    var w :| Fits(t, w);
    var w' := w.(node := w.node[u := 0], offset := w.offset + w.node[u]);
    TotalUpdate(w.node, u, 0);
    assert UnaryFits(t.nodes[u], w.node[u]);
    AddExact(t.offset, t.nodes[u].unary[c], w.offset, w.node[u]);
    forall i | 0 <= i < |r.nodes| ensures UnaryFits(r.nodes[i], w'.node[i]) {
      assert UnaryFits(t.nodes[i], w.node[i]);
    }
    forall k | 0 <= k < |r.edges| ensures MatrixFits(r, r.edges[k], w'.edge[k]) {
      assert MatrixFits(t, t.edges[k], w.edge[k]);
    }
    assert Fits(r, w');
  }

  lemma ConditionEliminates(s: State, u: nat, c: nat, kind: Kind)
    requires WF(s) && Safe(s) && u < |s.nodes| && s.nodes[u].active && c < s.nodes[u].domain
    requires kind == RN || kind == Branch
    ensures Eliminates(s, Condition(s, u, c, kind), u)
  {
    CondEdgesKeep(s, u, c, |s.edges|);
    var r := Condition(s, u, c, kind);
    assert r.order[..|s.order| + 1] == r.order;
  }

  lemma ConditionGraph(s: State, r: State, u: nat)
    requires GraphOk(s) && Eliminates(s, r, u)
    requires forall i :: 0 <= i < |s.nodes| ==> |r.nodes[i].unary| == |s.nodes[i].unary|
    requires forall j :: 0 <= j < |s.edges| && r.edges[j].active ==>
               r.edges[j] == s.edges[j] && !Touches(r.edges[j], u)
    requires r.edgeCount == ActiveEdges(r)
    ensures GraphOk(r)
  {
    forall j | 0 <= j < |s.edges| && r.edges[j].active ensures Square(r.edges[j].cost, s.stride) {
      assert EdgeOk(s, s.edges[j]);
    }
    Thinning(s, r, u);
  }

  lemma ConditionStructure(s: State, u: nat, c: nat, kind: Kind)
    requires WF(s) && Safe(s) && u < |s.nodes| && s.nodes[u].active && c < s.nodes[u].domain
    requires kind == RN || kind == Branch
    ensures var r := Condition(s, u, c, kind);
            Eliminates(s, r, u) && WF(r) && Safe(r) && ActiveEdges(r) <= ActiveEdges(s)
  {
    var t := CondEdges(s, u, c, |s.edges|);
    var r := Condition(s, u, c, kind);
    ConditionEliminates(s, u, c, kind);
    EliminatesOrder(s, r, u);
    CondEdgesKeep(s, u, c, |s.edges|);
    ConditionGraph(s, r, u);
    DetachFits(t, r, u, c);
  }

  /** Conditioning keeps the objective of every assignment that gives `u` the value `c`;
      its record says `c`, so replaying it loses nothing. */
  lemma ConditionPreserves(s: State, u: nat, c: nat, kind: Kind)
    requires WF(s) && Safe(s) && u < |s.nodes| && s.nodes[u].active && c < s.nodes[u].domain
    requires kind == RN || kind == Branch
    ensures var r := Condition(s, u, c, kind);
            && Eliminates(s, r, u) && WF(r) && Safe(r) && Faithful(s, r, u)
            && (forall x :: Valid(s, x) && x[u] == c ==> Objective(r, x) == Objective(s, x))
  {
    ConditionStructure(s, u, c, kind);
    var t := CondEdges(s, u, c, |s.edges|);
    CondEdgesKeep(s, u, c, |s.edges|);
    var r := Condition(s, u, c, kind);
    forall x | Valid(s, x) && x[u] == c ensures Objective(r, x) == Objective(s, x) {
      var same := CondEdgesObjective(s, u, c, |s.edges|, x);
      assert Valid(t, x);
      DetachObjective(t, r, u, c, x);
    }
    forall x | Valid(s, x) && At(x, u) == Choice(r, u, x)
      ensures Objective(r, x) == Objective(s, x)
    {
    }
  }
}
