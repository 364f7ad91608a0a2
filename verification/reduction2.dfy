/** Elimination of a degree-two node (software/pbqp/pbqp.cpp: FindEdge, AddFillEdge,
    ReduceR2): its costs move into the edge between its two neighbours, which is created
    if the pair is not joined yet. */
module ReductionTwo {
  import opened Basics
  import opened Costs
  import opened Graphs
  import opened Reductions

  // ------------------------------------------------------------- the fill edge

  /** The first slot at or after `from` that joins the pair. */
  function FirstJoin(edges: seq<Edge>, a: nat, b: nat, from: nat): (slot: Option<nat>)
    ensures slot.Some? ==> from <= slot.value < |edges| && Joins(edges[slot.value], a, b)
    ensures slot.None? ==> forall k :: from <= k < |edges| ==> !Joins(edges[k], a, b)
    decreases |edges| - from
  {
    if from >= |edges| then None
    else if Joins(edges[from], a, b) then Some(from)
    else FirstJoin(edges, a, b, from + 1)
  }

  /** The first inactive slot at or after `from`. */
  function FirstFree(edges: seq<Edge>, from: nat): (slot: Option<nat>)
    ensures slot.Some? ==> from <= slot.value < |edges| && !edges[slot.value].active
    ensures slot.None? ==> forall k :: from <= k < |edges| ==> edges[k].active
    decreases |edges| - from
  {
    if from >= |edges| then None
    else if !edges[from].active then Some(from)
    else FirstFree(edges, from + 1)
  }

  function FillSlot(s: State, a: nat, b: nat): (slot: Option<nat>)
    ensures slot.Some? ==>
              && slot.value < |s.edges|
              && (s.edges[slot.value].active ==> Joins(s.edges[slot.value], a, b))
    ensures slot.Some? && !s.edges[slot.value].active ==>
              forall k :: 0 <= k < |s.edges| ==> !Joins(s.edges[k], a, b)
  {
    match FirstJoin(s.edges, a, b, 0)
    case Some(f) => Some(f)
    case None => FirstFree(s.edges, 0)
  }

  function Zeros(side: nat): (cost: seq<seq<int>>)
    ensures Square(cost, side)
    ensures forall i, j :: 0 <= i && 0 <= j ==> Entry(cost, i, j) == 0
  {
    seq(side, i => seq(side, j => 0))
  }

  function WithFill(s: State, f: nat, a: nat, b: nat): State
    requires f < |s.edges|
  {
    if s.edges[f].active then s
    else s.(edges := s.edges[f := Edge(true, a, b, Zeros(s.stride))], edgeCount := s.edgeCount + 1)
  }

  lemma FillGraph(s: State, f: nat, a: nat, b: nat)
    requires GraphOk(s) && a < |s.nodes| && b < |s.nodes| && a != b
    requires s.nodes[a].active && s.nodes[b].active && FillSlot(s, a, b) == Some(f)
    ensures var t := WithFill(s, f, a, b); GraphOk(t) && Joins(t.edges[f], a, b)
  {
    var t := WithFill(s, f, a, b);
    if !s.edges[f].active {
      forall k | 0 <= k < |t.edges| ensures EdgeOk(t, t.edges[k]) {
        assert EdgeOk(s, s.edges[k]);
      }
      forall j, k | 0 <= j < |t.edges| && 0 <= k < |t.edges| && j != k
        ensures Apart(t.edges[j], t.edges[k])
      {
        assert Apart(s.edges[j], s.edges[k]);
      }
      TotalUpdate(EdgeFlags(s.edges), f, 1);
      assert EdgeFlags(t.edges) == EdgeFlags(s.edges)[f := 1];
    }
  }

  /** A zero matrix changes no objective. */
  lemma FillObjective(s: State, f: nat, a: nat, b: nat, x: Assignment)
    requires f < |s.edges|
    ensures Objective(WithFill(s, f, a, b), x) == Objective(s, x)
  {
    var t := WithFill(s, f, a, b);
    if !s.edges[f].active {
      assert EdgeTerms(t, x) == EdgeTerms(s, x);
      assert NodeTerms(t, x) == NodeTerms(s, x);
    }
  }

  lemma FillFits(s: State, w: Budget, f: nat, a: nat, b: nat)
    requires Fits(s, w) && f < |s.edges|
    ensures Fits(WithFill(s, f, a, b), w)
  {
    var t := WithFill(s, f, a, b);
    if !s.edges[f].active {
      forall i | 0 <= i < |t.nodes| ensures UnaryFits(t.nodes[i], w.node[i]) {
        assert UnaryFits(s.nodes[i], w.node[i]);
      }
      forall k | 0 <= k < |t.edges| ensures MatrixFits(t, t.edges[k], w.edge[k]) {
        assert MatrixFits(s, s.edges[k], w.edge[k]);
      }
    }
  }

  // ------------------------------------------------------------- the merge

  /** Node `u` with edges `k` and `l` to two different neighbours, which edge `f` joins. */
  ghost predicate Fork(s: State, u: nat, k: nat, l: nat, f: nat) {
    && u < |s.nodes| && s.nodes[u].active
    && k < |s.edges| && l < |s.edges| && f < |s.edges| && k != l
    && Touches(s.edges[k], u) && Touches(s.edges[l], u)
    && Joins(s.edges[f], Other(s.edges[k], u), Other(s.edges[l], u))
  }

  lemma ForkApart(s: State, u: nat, k: nat, l: nat, f: nat)
    requires GraphOk(s) && Fork(s, u, k, l, f)
    ensures f != k && f != l
    ensures var a, b := Other(s.edges[k], u), Other(s.edges[l], u);
            a < |s.nodes| && b < |s.nodes| && a != b && a != u && b != u
            && s.nodes[a].active && s.nodes[b].active
  {
    assert EdgeOk(s, s.edges[k]) && EdgeOk(s, s.edges[l]) && EdgeOk(s, s.edges[f]);
    assert Apart(s.edges[k], s.edges[l]);
  }

  /** What node `u` and its two edges cost when the neighbours take values `i` and `j`. */
  function R2Row(s: State, u: nat, k: nat, l: nat, i: nat, j: nat): seq<int> {
    if u < |s.nodes| && k < |s.edges| && l < |s.edges| then
      var unary := s.nodes[u].unary;
      seq(|unary|, v requires 0 <= v < |unary| =>
        Add(Add(unary[v], CostAt(s.edges[k], u, v, i)), CostAt(s.edges[l], u, v, j)))
    else []
  }

  function R2Min(s: State, u: nat, k: nat, l: nat, i: nat, j: nat): MinArg {
    FirstMin(R2Row(s, u, k, l, i, j))
  }

  /** The merged entry of fill edge `e`, between neighbours `a` (first) and the other. */
  function MergedEntry(s: State, u: nat, k: nat, l: nat, e: Edge, a: nat, p: nat, q: nat): int {
    var m := if e.first == a then R2Min(s, u, k, l, p, q) else R2Min(s, u, k, l, q, p);
    Add(Entry(e.cost, p, q), m.value)
  }

  function MergedRow(s: State, u: nat, k: nat, l: nat, e: Edge, a: nat, columns: nat, p: nat):
    (row: seq<int>)
    ensures |row| == s.stride
  {
    seq(s.stride, q requires 0 <= q =>
      if q < columns then MergedEntry(s, u, k, l, e, a, p, q) else Entry(e.cost, p, q))
  }

  function MergedCost(s: State, u: nat, k: nat, l: nat, e: Edge, a: nat, rows: nat, columns: nat):
    (cost: seq<seq<int>>)
    ensures |cost| == s.stride
    ensures forall p :: 0 <= p < s.stride ==>
              cost[p] == MergedRow(s, u, k, l, e, a, if p < rows then columns else 0, p)
    ensures Square(cost, s.stride)
  {
    seq(s.stride, p requires 0 <= p =>
      MergedRow(s, u, k, l, e, a, if p < rows then columns else 0, p))
  }

  /** Fill edge `f` after the merge. */
  function MergedEdge(s: State, u: nat, k: nat, l: nat, f: nat): Edge
    requires k < |s.edges| && f < |s.edges|
    requires s.edges[f].first < |s.nodes| && s.edges[f].second < |s.nodes|
  {
    var e := s.edges[f];
    e.(cost := MergedCost(s, u, k, l, e, Other(s.edges[k], u),
                          s.nodes[e.first].domain, s.nodes[e.second].domain))
  }

  function R2Table(s: State, u: nat, k: nat, l: nat, rows: nat, columns: nat): (table: seq<nat>)
    ensures |table| == Offset(rows, columns)
  {
    if rows == 0 then []
    else R2Table(s, u, k, l, rows - 1, columns)
         + seq(columns, j requires 0 <= j => R2Min(s, u, k, l, rows - 1, j).index)
  }

  function MergeR2(s: State, u: nat, k: nat, l: nat, f: nat): State
    requires u < |s.nodes| && k < |s.edges| && l < |s.edges|
    requires f < |s.edges| && s.edges[f].first < |s.nodes| && s.edges[f].second < |s.nodes|
    requires Other(s.edges[k], u) < |s.nodes| && Other(s.edges[l], u) < |s.nodes|
  {
    var a, b := Other(s.edges[k], u), Other(s.edges[l], u);
    var table := R2Table(s, u, k, l, s.nodes[a].domain, s.nodes[b].domain);
    s.(nodes := s.nodes[u := s.nodes[u].(active := false, kind := R2, first := a, second := b,
                                         table := table)],
       edges := s.edges[f := MergedEdge(s, u, k, l, f)]
                       [k := s.edges[k].(active := false)]
                       [l := s.edges[l].(active := false)],
       edgeCount := if s.edgeCount >= 2 then s.edgeCount - 2 else 0,
       order := s.order + [u])
  }

  lemma R2EntryExact(s: State, w: Budget, u: nat, k: nat, l: nat, i: nat, j: nat, v: nat)
    requires GraphOk(s) && Fits(s, w) && u < |s.nodes| && s.nodes[u].active
    requires k < |s.edges| && l < |s.edges| && k != l && Touches(s.edges[k], u) && Touches(s.edges[l], u)
    requires Other(s.edges[k], u) < |s.nodes| && i < s.nodes[Other(s.edges[k], u)].domain
    requires Other(s.edges[l], u) < |s.nodes| && j < s.nodes[Other(s.edges[l], u)].domain
    requires v < s.nodes[u].domain
    ensures var first, second, third :=
              s.nodes[u].unary[v], CostAt(s.edges[k], u, v, i), CostAt(s.edges[l], u, v, j);
            && AddChecked(first, second) == Sum(Add(first, second))
            && AddChecked(Add(first, second), third) == Sum(R2Row(s, u, k, l, i, j)[v])
            && ToExt(R2Row(s, u, k, l, i, j)[v])
               == Plus(ToExt(first), Plus(ToExt(second), ToExt(third)))
            && Bounded(R2Row(s, u, k, l, i, j)[v], w.node[u] + w.edge[k] + w.edge[l])
  {
    TotalMember(w.node, u);
    TotalPair(w.edge, k, l);
    assert UnaryFits(s.nodes[u], w.node[u]);
    assert EdgeOk(s, s.edges[k]) && MatrixFits(s, s.edges[k], w.edge[k]);
    assert EdgeOk(s, s.edges[l]) && MatrixFits(s, s.edges[l], w.edge[l]);
    AddThreeExact(s.nodes[u].unary[v], CostAt(s.edges[k], u, v, i), CostAt(s.edges[l], u, v, j),
                  w.node[u], w.edge[k], w.edge[l]);
  }

  /** The chosen minimum is at most what any value of the eliminated node costs. */
  lemma R2Least(s: State, w: Budget, u: nat, k: nat, l: nat, i: nat, j: nat, v: nat)
    requires GraphOk(s) && Fits(s, w) && u < |s.nodes| && s.nodes[u].active
    requires k < |s.edges| && l < |s.edges| && k != l && Touches(s.edges[k], u) && Touches(s.edges[l], u)
    requires Other(s.edges[k], u) < |s.nodes| && i < s.nodes[Other(s.edges[k], u)].domain
    requires Other(s.edges[l], u) < |s.nodes| && j < s.nodes[Other(s.edges[l], u)].domain
    requires v < s.nodes[u].domain
    ensures Le(ToExt(R2Min(s, u, k, l, i, j).value), Plus(ToExt(s.nodes[u].unary[v]),
               Plus(ToExt(CostAt(s.edges[k], u, v, i)), ToExt(CostAt(s.edges[l], u, v, j)))))
  {
    R2EntryExact(s, w, u, k, l, i, j, v);
    assert R2Min(s, u, k, l, i, j).value <= R2Row(s, u, k, l, i, j)[v];
    assert R2Row(s, u, k, l, i, j)[v] <= INF;
  }

  /** The minimum over the eliminated node, exactly. */
  lemma R2MinExact(s: State, w: Budget, u: nat, k: nat, l: nat, f: nat, i: nat, j: nat)
    requires GraphOk(s) && Fits(s, w) && Fork(s, u, k, l, f)
    requires Other(s.edges[k], u) < |s.nodes| && i < s.nodes[Other(s.edges[k], u)].domain
    requires Other(s.edges[l], u) < |s.nodes| && j < s.nodes[Other(s.edges[l], u)].domain
    ensures var m := R2Min(s, u, k, l, i, j);
            && Bounded(m.value, w.node[u] + w.edge[k] + w.edge[l])
            && m.index < s.nodes[u].domain
            && ToExt(m.value) == Plus(ToExt(s.nodes[u].unary[m.index]),
                 Plus(ToExt(CostAt(s.edges[k], u, m.index, i)), ToExt(CostAt(s.edges[l], u, m.index, j))))
            && forall v :: 0 <= v < s.nodes[u].domain ==>
                 Le(ToExt(m.value), Plus(ToExt(s.nodes[u].unary[v]),
                   Plus(ToExt(CostAt(s.edges[k], u, v, i)), ToExt(CostAt(s.edges[l], u, v, j)))))
  {
    var m := R2Min(s, u, k, l, i, j);
    R2EntryExact(s, w, u, k, l, i, j, m.index);
    forall v | 0 <= v < s.nodes[u].domain
      ensures Le(ToExt(m.value), Plus(ToExt(s.nodes[u].unary[v]),
                 Plus(ToExt(CostAt(s.edges[k], u, v, i)), ToExt(CostAt(s.edges[l], u, v, j)))))
    {
      R2Least(s, w, u, k, l, i, j, v);
    }
  }

  /** Whichever way round the fill edge is stored, the merged entry is the old one plus the
      minimum for those values. */
  lemma MergedAt(s: State, u: nat, k: nat, l: nat, f: nat, i: nat, j: nat)
    requires GraphOk(s) && Fork(s, u, k, l, f)
    requires Other(s.edges[k], u) < |s.nodes| && i < s.nodes[Other(s.edges[k], u)].domain
    requires Other(s.edges[l], u) < |s.nodes| && j < s.nodes[Other(s.edges[l], u)].domain
    requires s.edges[f].first < |s.nodes| && s.edges[f].second < |s.nodes|
    ensures var a := Other(s.edges[k], u);
            CostAt(MergedEdge(s, u, k, l, f), a, i, j)
            == Add(CostAt(s.edges[f], a, i, j), R2Min(s, u, k, l, i, j).value)
  {
    ForkApart(s, u, k, l, f);
    var a, b := Other(s.edges[k], u), Other(s.edges[l], u);
    assert EdgeOk(s, s.edges[f]);
    assert NodeOk(s.nodes[a], s.stride) && NodeOk(s.nodes[b], s.stride);
  }

  /** One entry of the fill matrix after the merge, for the neighbours' values `i` and `j`. */
  lemma R2Merged(s: State, w: Budget, u: nat, k: nat, l: nat, f: nat, i: nat, j: nat)
    requires GraphOk(s) && Fits(s, w) && Fork(s, u, k, l, f)
    requires Other(s.edges[k], u) < |s.nodes| && i < s.nodes[Other(s.edges[k], u)].domain
    requires Other(s.edges[l], u) < |s.nodes| && j < s.nodes[Other(s.edges[l], u)].domain
    requires s.edges[f].first < |s.nodes| && s.edges[f].second < |s.nodes|
    ensures var merged := MergedEdge(s, u, k, l, f);
            var a := Other(s.edges[k], u);
            && ToExt(CostAt(merged, a, i, j))
               == Plus(ToExt(CostAt(s.edges[f], a, i, j)), ToExt(R2Min(s, u, k, l, i, j).value))
            && Bounded(CostAt(merged, a, i, j), w.edge[f] + w.node[u] + w.edge[k] + w.edge[l])
  {
    ForkApart(s, u, k, l, f);
    var a, b := Other(s.edges[k], u), Other(s.edges[l], u);
    assert EdgeOk(s, s.edges[f]) && MatrixFits(s, s.edges[f], w.edge[f]);
    MergedAt(s, u, k, l, f, i, j);
    R2MinExact(s, w, u, k, l, f, i, j);
    R2BudgetRoom(w, u, k, l, f);
    AddExact(CostAt(s.edges[f], a, i, j), R2Min(s, u, k, l, i, j).value,
             w.edge[f], w.node[u] + w.edge[k] + w.edge[l]);
  }

  function R2Budget(w: Budget, u: nat, k: nat, l: nat, f: nat): (w': Budget)
    requires u < |w.node| && k < |w.edge| && l < |w.edge| && f < |w.edge|
    requires k != l && k != f && l != f
    ensures Spent(w') == Spent(w)
  {
    var moved := w.edge[f] + w.node[u] + w.edge[k] + w.edge[l];
    TotalUpdate(w.node, u, 0);
    TotalUpdate(w.edge, f, moved);
    TotalUpdate(w.edge[f := moved], k, 0);
    TotalUpdate(w.edge[f := moved][k := 0], l, 0);
    w.(node := w.node[u := 0], edge := w.edge[f := moved][k := 0][l := 0])
  }

  lemma R2BudgetRoom(w: Budget, u: nat, k: nat, l: nat, f: nat)
    requires u < |w.node| && k < |w.edge| && l < |w.edge| && f < |w.edge|
    requires k != l && k != f && l != f && Spent(w) < INF
    ensures w.edge[f] + w.node[u] + w.edge[k] + w.edge[l] < INF
  {
    var w' := R2Budget(w, u, k, l, f);
    TotalMember(w'.edge, f);
  }

  lemma R2Fits(s: State, w: Budget, u: nat, k: nat, l: nat, f: nat)
    requires GraphOk(s) && Fits(s, w) && Fork(s, u, k, l, f)
    requires Other(s.edges[k], u) < |s.nodes| && Other(s.edges[l], u) < |s.nodes|
    requires s.edges[f].first < |s.nodes| && s.edges[f].second < |s.nodes|
    ensures Safe(MergeR2(s, u, k, l, f))
  {
    ForkApart(s, u, k, l, f);
    var t := MergeR2(s, u, k, l, f);
    var w' := R2Budget(w, u, k, l, f);
    forall i | 0 <= i < |t.nodes| ensures UnaryFits(t.nodes[i], w'.node[i]) {
      assert UnaryFits(s.nodes[i], w.node[i]);
    }
    forall e | 0 <= e < |t.edges| ensures MatrixFits(t, t.edges[e], w'.edge[e]) {
      if e == f {
        R2MatrixFits(s, w, u, k, l, f);
      } else {
        assert MatrixFits(s, s.edges[e], w.edge[e]);
      }
    }
    assert Fits(t, w');
  }

  lemma R2MatrixFits(s: State, w: Budget, u: nat, k: nat, l: nat, f: nat)
    requires GraphOk(s) && Fits(s, w) && Fork(s, u, k, l, f)
    requires Other(s.edges[k], u) < |s.nodes| && Other(s.edges[l], u) < |s.nodes|
    requires s.edges[f].first < |s.nodes| && s.edges[f].second < |s.nodes|
    ensures MatrixFits(s, MergedEdge(s, u, k, l, f),
                       w.edge[f] + w.node[u] + w.edge[k] + w.edge[l])
  {
    var e := s.edges[f];
    var merged := MergedEdge(s, u, k, l, f);
    var a := Other(s.edges[k], u);
    forall p, q | 0 <= p < s.nodes[e.first].domain && 0 <= q < s.nodes[e.second].domain
      ensures Bounded(Entry(merged.cost, p, q), w.edge[f] + w.node[u] + w.edge[k] + w.edge[l])
    {
      if e.first == a {
        R2Merged(s, w, u, k, l, f, p, q);
      } else {
        R2Merged(s, w, u, k, l, f, q, p);
      }
    }
  }

  // ---------------------------------------------------------- structure of R2

  lemma {:induction false} R2TableAt(s: State, u: nat, k: nat, l: nat, rows: nat, columns: nat,
                                     i: nat, j: nat)
    requires i < rows && j < columns
    ensures Offset(i, columns) + j < Offset(rows, columns)
    ensures R2Table(s, u, k, l, rows, columns)[Offset(i, columns) + j] == R2Min(s, u, k, l, i, j).index
    decreases rows
  {
    SlotInRange(i, j, rows, columns);
    if i < rows - 1 {
      R2TableAt(s, u, k, l, rows - 1, columns, i, j);
    }
  }

  lemma {:induction false} R2TableBound(s: State, u: nat, k: nat, l: nat, rows: nat, columns: nat)
    requires u < |s.nodes| && k < |s.edges| && l < |s.edges| && |s.nodes[u].unary| > 0
    ensures forall i :: 0 <= i < Offset(rows, columns) ==>
              R2Table(s, u, k, l, rows, columns)[i] < |s.nodes[u].unary|
  {
    if rows > 0 {
      R2TableBound(s, u, k, l, rows - 1, columns);
    }
  }

  lemma R2Eliminates(s: State, u: nat, k: nat, l: nat, f: nat)
    requires WF(s) && Fork(s, u, k, l, f)
    requires Other(s.edges[k], u) < |s.nodes| && Other(s.edges[l], u) < |s.nodes|
    requires s.edges[f].first < |s.nodes| && s.edges[f].second < |s.nodes|
    ensures Eliminates(s, MergeR2(s, u, k, l, f), u)
  {
    ForkApart(s, u, k, l, f);
    var t := MergeR2(s, u, k, l, f);
    var a, b := Other(s.edges[k], u), Other(s.edges[l], u);
    R2TableBound(s, u, k, l, s.nodes[a].domain, s.nodes[b].domain);
    assert t.order[..|s.order| + 1] == t.order;
    assert a !in t.order && b !in t.order;
  }

  lemma R2Structure(s: State, u: nat, k: nat, l: nat, f: nat)
    requires WF(s) && Fork(s, u, k, l, f)
    requires Other(s.edges[k], u) < |s.nodes| && Other(s.edges[l], u) < |s.nodes|
    requires s.edges[f].first < |s.nodes| && s.edges[f].second < |s.nodes|
    requires forall j :: 0 <= j < |s.edges| && j != k && j != l ==> !Touches(s.edges[j], u)
    ensures var t := MergeR2(s, u, k, l, f); WF(t) && Eliminates(s, t, u)
  {
    ForkApart(s, u, k, l, f);
    var t := MergeR2(s, u, k, l, f);
    R2Eliminates(s, u, k, l, f);
    EliminatesOrder(s, t, u);
    forall j | 0 <= j < |s.edges| && t.edges[j].active
      ensures && t.edges[j] == s.edges[j].(cost := t.edges[j].cost)
              && !Touches(t.edges[j], u) && Square(t.edges[j].cost, s.stride)
    {
      assert EdgeOk(s, s.edges[j]);
    }
    Thinning(s, t, u);
    R2Count(s, u, k, l, f);
  }

  lemma R2Count(s: State, u: nat, k: nat, l: nat, f: nat)
    requires GraphOk(s) && Fork(s, u, k, l, f)
    requires Other(s.edges[k], u) < |s.nodes| && Other(s.edges[l], u) < |s.nodes|
    requires s.edges[f].first < |s.nodes| && s.edges[f].second < |s.nodes|
    ensures var t := MergeR2(s, u, k, l, f);
            t.edgeCount == ActiveEdges(t) == s.edgeCount - 2
  {
    ForkApart(s, u, k, l, f);
    var t := MergeR2(s, u, k, l, f);
    var flags := EdgeFlags(s.edges);
    TotalUpdate(flags, k, 0);
    TotalUpdate(flags[k := 0], l, 0);
    assert EdgeFlags(t.edges) == flags[k := 0][l := 0];
  }

  // ----------------------------------------------------------- meaning of R2

  lemma R2NodeTerms(s: State, u: nat, k: nat, l: nat, f: nat, x: Assignment)
    requires GraphOk(s) && Fork(s, u, k, l, f) && Valid(s, x)
    requires Other(s.edges[k], u) < |s.nodes| && Other(s.edges[l], u) < |s.nodes|
    requires s.edges[f].first < |s.nodes| && s.edges[f].second < |s.nodes|
    ensures NodeTerms(s, x)[u] == s.nodes[u].unary[x[u]]
    ensures Moved(NodeTerms(s, x), NodeTerms(MergeR2(s, u, k, l, f), x), u, u)
  {
  }

  lemma R2EdgeTerms(s: State, u: nat, k: nat, l: nat, f: nat, x: Assignment)
    requires GraphOk(s) && Fork(s, u, k, l, f) && Valid(s, x)
    requires Other(s.edges[k], u) < |s.nodes| && Other(s.edges[l], u) < |s.nodes|
    requires s.edges[f].first < |s.nodes| && s.edges[f].second < |s.nodes|
    ensures var a, b := Other(s.edges[k], u), Other(s.edges[l], u);
            && EdgeTerms(s, x)[k] == CostAt(s.edges[k], u, x[u], x[a])
            && EdgeTerms(s, x)[l] == CostAt(s.edges[l], u, x[u], x[b])
            && EdgeTerms(s, x)[f] == CostAt(s.edges[f], a, x[a], x[b])
  {
    ForkApart(s, u, k, l, f);
    assert EdgeOk(s, s.edges[k]) && EdgeOk(s, s.edges[l]) && EdgeOk(s, s.edges[f]);
  }

  lemma R2EdgesAfter(s: State, u: nat, k: nat, l: nat, f: nat, x: Assignment)
    requires GraphOk(s) && Fork(s, u, k, l, f) && Valid(s, x)
    requires Other(s.edges[k], u) < |s.nodes| && Other(s.edges[l], u) < |s.nodes|
    requires s.edges[f].first < |s.nodes| && s.edges[f].second < |s.nodes|
    ensures var t := MergeR2(s, u, k, l, f);
            var a, b := Other(s.edges[k], u), Other(s.edges[l], u);
            && EdgeTerms(t, x)[f]
               == CostAt(MergedEdge(s, u, k, l, f), a, x[a], x[b])
            && EdgeTerms(t, x)[k] == 0 && EdgeTerms(t, x)[l] == 0
            && (forall j :: 0 <= j < |s.edges| && j != k && j != l && j != f ==>
                  EdgeTerms(t, x)[j] == EdgeTerms(s, x)[j])
  {
    ForkApart(s, u, k, l, f);
    assert EdgeOk(s, s.edges[f]);
  }

  lemma R2Choice(s: State, u: nat, k: nat, l: nat, f: nat, x: Assignment)
    requires GraphOk(s) && Fork(s, u, k, l, f) && Valid(s, x)
    requires Other(s.edges[k], u) < |s.nodes| && Other(s.edges[l], u) < |s.nodes|
    requires s.edges[f].first < |s.nodes| && s.edges[f].second < |s.nodes|
    ensures Choice(MergeR2(s, u, k, l, f), u, x)
            == R2Min(s, u, k, l, x[Other(s.edges[k], u)], x[Other(s.edges[l], u)]).index
  {
    ForkApart(s, u, k, l, f);
    var a, b := Other(s.edges[k], u), Other(s.edges[l], u);
    var t := MergeR2(s, u, k, l, f);
    assert t.nodes[u].table == R2Table(s, u, k, l, s.nodes[a].domain, s.nodes[b].domain);
    assert t.nodes[b].domain == s.nodes[b].domain;
    R2TableAt(s, u, k, l, s.nodes[a].domain, s.nodes[b].domain, x[a], x[b]);
  }

  lemma ForkSums(before: seq<int>, after: seq<int>, k: nat, l: nat, f: nat) returns (rest: Ext)
    requires |before| == |after| && k < |before| && l < |before| && f < |before|
    requires k != l && k != f && l != f && after[k] == 0 && after[l] == 0
    requires forall j :: 0 <= j < |before| && j != k && j != l && j != f ==> after[j] == before[j]
    ensures ExtSum(before)
            == Plus(rest, Plus(ToExt(before[f]), Plus(ToExt(before[k]), ToExt(before[l]))))
    ensures ExtSum(after) == Plus(rest, ToExt(after[f]))
  {
    var middle := after[f := before[f]][l := before[l]];
    assert before == middle[k := before[k]];
    ExtSumExtract(before, k);
    ExtSumExtract(before[k := 0], l);
    ExtSumExtract(before[k := 0][l := 0], f);
    ExtSumExtract(after, f);
    assert before[k := 0][l := 0][f := 0] == after[f := 0];
    rest := ExtSum(after[f := 0]);
    ForkRegroup(rest, ToExt(before[f]), ToExt(before[k]), ToExt(before[l]));
  }

  lemma ForkRegroup(rest: Ext, f: Ext, k: Ext, l: Ext)
    ensures Plus(k, Plus(l, Plus(f, rest))) == Plus(rest, Plus(f, Plus(k, l)))
  {
  }

  lemma R2Regroup(offset: Ext, nodes: Ext, u: Ext, edges: Ext, f: Ext, k: Ext, l: Ext)
    ensures Plus(offset, Plus(Plus(nodes, u), Plus(edges, Plus(f, Plus(k, l)))))
            == Plus(Plus(offset, Plus(nodes, edges)), Plus(f, Plus(u, Plus(k, l))))
  {
  }

  /** The old and the new objective share everything but the terms R2 merges. */
  lemma R2Split(s: State, u: nat, k: nat, l: nat, f: nat, x: Assignment) returns (rest: Ext)
    requires GraphOk(s) && Fork(s, u, k, l, f) && Valid(s, x)
    requires Other(s.edges[k], u) < |s.nodes| && Other(s.edges[l], u) < |s.nodes|
    requires s.edges[f].first < |s.nodes| && s.edges[f].second < |s.nodes|
    ensures Objective(s, x)
            == Plus(rest, Plus(ToExt(EdgeTerms(s, x)[f]),
                 Plus(ToExt(NodeTerms(s, x)[u]),
                   Plus(ToExt(EdgeTerms(s, x)[k]), ToExt(EdgeTerms(s, x)[l])))))
    ensures var t := MergeR2(s, u, k, l, f);
            Objective(t, x) == Plus(rest, ToExt(EdgeTerms(t, x)[f]))
  {
    var t := MergeR2(s, u, k, l, f);
    ForkApart(s, u, k, l, f);
    R2NodeTerms(s, u, k, l, f, x);
    R2EdgesAfter(s, u, k, l, f, x);
    DroppedSum(NodeTerms(s, x), NodeTerms(t, x), u);
    var edges := ForkSums(EdgeTerms(s, x), EdgeTerms(t, x), k, l, f);
    var nodes := ExtSum(NodeTerms(t, x));
    rest := Plus(ToExt(s.offset), Plus(nodes, edges));
    R2Regroup(ToExt(s.offset), nodes, ToExt(NodeTerms(s, x)[u]), edges, ToExt(EdgeTerms(s, x)[f]),
              ToExt(EdgeTerms(s, x)[k]), ToExt(EdgeTerms(s, x)[l]));
    RegroupOne(ToExt(s.offset), nodes, ToExt(EdgeTerms(t, x)[f]), edges);
  }

  lemma R2Objective(s: State, w: Budget, u: nat, k: nat, l: nat, f: nat, x: Assignment)
    requires GraphOk(s) && Fits(s, w) && Fork(s, u, k, l, f) && Valid(s, x)
    requires Other(s.edges[k], u) < |s.nodes| && Other(s.edges[l], u) < |s.nodes|
    requires s.edges[f].first < |s.nodes| && s.edges[f].second < |s.nodes|
    ensures var t := MergeR2(s, u, k, l, f);
            && Le(Objective(t, x), Objective(s, x))
            && (At(x, u) == Choice(t, u, x) ==> Objective(t, x) == Objective(s, x))
  {
    ForkApart(s, u, k, l, f);
    var a, b := Other(s.edges[k], u), Other(s.edges[l], u);
    R2NodeTerms(s, u, k, l, f, x);
    R2EdgeTerms(s, u, k, l, f, x);
    R2EdgesAfter(s, u, k, l, f, x);
    R2Merged(s, w, u, k, l, f, x[a], x[b]);
    R2MinExact(s, w, u, k, l, f, x[a], x[b]);
    R2Choice(s, u, k, l, f, x);
    var rest := R2Split(s, u, k, l, f, x);
    Replace(rest, ToExt(EdgeTerms(s, x)[f]),
            Plus(ToExt(NodeTerms(s, x)[u]),
                 Plus(ToExt(EdgeTerms(s, x)[k]), ToExt(EdgeTerms(s, x)[l]))),
            ToExt(R2Min(s, u, k, l, x[a], x[b]).value));
  }

  // ------------------------------------------------------------- the reduction

  /** None when a new fill edge is needed and every slot is taken. */
  function ReduceR2(s: State, u: nat, k: nat, l: nat): Option<State>
    requires u < |s.nodes| && k < |s.edges| && l < |s.edges|
    requires Other(s.edges[k], u) < |s.nodes| && Other(s.edges[l], u) < |s.nodes|
  {
    var a, b := Other(s.edges[k], u), Other(s.edges[l], u);
    match FillSlot(s, a, b)
    case None => None
    case Some(f) => Some(MergeR2(WithFill(s, f, a, b), u, k, l, f))
  }

  /** A degree-two node has exactly two active edges, to two different active nodes. */
  lemma TwoIncident(s: State, u: nat, k: nat, l: nat)
    requires GraphOk(s) && u < |s.nodes| && Incident(s, u) == [k, l]
    ensures k < |s.edges| && l < |s.edges| && k != l
    ensures Touches(s.edges[k], u) && Touches(s.edges[l], u)
    ensures forall j :: 0 <= j < |s.edges| && j != k && j != l ==> !Touches(s.edges[j], u)
    ensures var a, b := Other(s.edges[k], u), Other(s.edges[l], u);
            a < |s.nodes| && b < |s.nodes| && a != b && a != u && b != u
            && s.nodes[a].active && s.nodes[b].active
  {
    IncidentToMember(s.edges, u, |s.edges|);
    assert k in Incident(s, u) && l in Incident(s, u);
    assert Incident(s, u)[0] == k && Incident(s, u)[1] == l;
    assert EdgeOk(s, s.edges[k]) && EdgeOk(s, s.edges[l]) && Apart(s.edges[k], s.edges[l]);
  }

  lemma FillKeeps(s: State, u: nat, k: nat, l: nat, f: nat)
    requires WF(s) && u < |s.nodes| && s.nodes[u].active && Incident(s, u) == [k, l]
    requires k < |s.edges| && l < |s.edges|
    requires FillSlot(s, Other(s.edges[k], u), Other(s.edges[l], u)) == Some(f)
    ensures var t := WithFill(s, f, Other(s.edges[k], u), Other(s.edges[l], u));
            && WF(t) && Fork(t, u, k, l, f) && t.nodes == s.nodes && t.order == s.order
            && t.edges[k] == s.edges[k] && t.edges[l] == s.edges[l] && t.stride == s.stride
            && |t.edges| == |s.edges|
            && t.edges[f].first < |t.nodes| && t.edges[f].second < |t.nodes|
            && (forall j :: 0 <= j < |t.edges| && j != k && j != l ==> !Touches(t.edges[j], u))
  {
    TwoIncident(s, u, k, l);
    var a, b := Other(s.edges[k], u), Other(s.edges[l], u);
    FillGraph(s, f, a, b);
    var t := WithFill(s, f, a, b);
    assert EdgeOk(t, t.edges[f]);
    forall p | 0 <= p < |t.order| ensures RecordOk(t, p) {
      assert RecordOk(s, p);
    }
  }

  /** Eliminating a degree-two node, whether the fill edge is new or not and whichever way
      round the three edges are stored. */
  lemma R2Preserves(s: State, u: nat, k: nat, l: nat)
    requires WF(s) && Safe(s) && u < |s.nodes| && s.nodes[u].active && Incident(s, u) == [k, l]
    ensures k < |s.edges| && l < |s.edges|
    ensures Other(s.edges[k], u) < |s.nodes| && Other(s.edges[l], u) < |s.nodes|
    ensures ReduceR2(s, u, k, l).Some? ==>
              var t := ReduceR2(s, u, k, l).value;
              Eliminates(s, t, u) && WF(t) && Safe(t) && Faithful(s, t, u) && Below(s, t)
  {
    TwoIncident(s, u, k, l);
    var a, b := Other(s.edges[k], u), Other(s.edges[l], u);
    var slot := FillSlot(s, a, b);
    if slot.Some? {
      var f := slot.value;
      FillKeeps(s, u, k, l, f);
      var filled := WithFill(s, f, a, b);
      var t := MergeR2(filled, u, k, l, f);
      R2Structure(filled, u, k, l, f);
      var w :| Fits(s, w);
      FillFits(s, w, f, a, b);
      R2Fits(filled, w, u, k, l, f);
      assert Eliminates(s, t, u);
      forall x | Valid(s, x)
        ensures && Le(Objective(t, x), Objective(s, x))
                && (At(x, u) == Choice(t, u, x) ==> Objective(t, x) == Objective(s, x))
      {
        assert Valid(filled, x);
        R2Objective(filled, w, u, k, l, f, x);
        FillObjective(s, f, a, b, x);
      }
    }
  }
}
