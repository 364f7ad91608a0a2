/** The graph rewrites of the solver, as functions of the state
    (software/pbqp/pbqp.cpp: ReduceR0, ReduceR1, ReduceR2, ConditionNode), and why
    they preserve the problem. */
module Reductions {
  import opened Costs
  import opened Graphs

  // ------------------------------------------------------ the shape of a step

  /** `t` is `s` with node `u` eliminated and its choice recorded. */
  ghost predicate Eliminates(s: State, t: State, u: nat) {
    && u < |s.nodes| && s.nodes[u].active
    && t.stride == s.stride && |t.nodes| == |s.nodes| && |t.edges| == |s.edges|
    && t.order == s.order + [u]
    && (forall i :: 0 <= i < |s.nodes| && i != u ==>
          t.nodes[i] == s.nodes[i].(unary := t.nodes[i].unary))
    && !t.nodes[u].active && t.nodes[u].domain == s.nodes[u].domain
    && RecordOk(t, |s.order|)
  }

  /** Replaying the recorded choice loses nothing. */
  ghost predicate Faithful(s: State, t: State, u: nat)
    requires u < |t.nodes|
  {
    forall x :: Valid(s, x) && At(x, u) == Choice(t, u, x) ==> Objective(t, x) == Objective(s, x)
  }

  /** The new objective is nowhere above the old one. It does not depend on the value of
      `u`, so together with `Faithful` it is the old objective minimised over `u`. */
  ghost predicate Below(s: State, t: State) {
    forall x :: Valid(s, x) ==> Le(Objective(t, x), Objective(s, x))
  }

  lemma RecordKept(s: State, t: State, u: nat, p: nat)
    requires OrderOk(s) && Eliminates(s, t, u) && p < |s.order|
    ensures RecordOk(t, p)
  {
    assert RecordOk(s, p);
    assert s.order[p] != u;
    assert t.order[..p + 1] == s.order[..p + 1];
  }

  lemma EliminatesOrder(s: State, t: State, u: nat)
    requires OrderOk(s) && Eliminates(s, t, u)
    ensures OrderOk(t)
    ensures ActiveNodes(t) == ActiveNodes(s) - 1
  {
    FlagsUpdate(s.nodes, t.nodes, u);
    forall p | 0 <= p < |t.order|
      ensures t.order[p] < |t.nodes| && !t.nodes[t.order[p]].active && RecordOk(t, p)
    {
      if p < |s.order| {
        RecordKept(s, t, u, p);
      }
    }
    forall i | 0 <= i < |t.nodes| && !t.nodes[i].active ensures i in t.order {
      if i == u {
        assert t.order[|s.order|] == u;
      } else {
        assert i in s.order;
      }
    }
  }

  /** Assignments keep their meaning across a step: the same ones are valid, and being
      consistent afterwards adds exactly the recorded choice of `u`. */
  lemma EliminatesConsistent(s: State, t: State, u: nat, x: Assignment)
    requires OrderOk(s) && Eliminates(s, t, u)
    ensures Valid(t, x) <==> Valid(s, x)
    ensures Consistent(t, x) <==> Consistent(s, x) && At(x, u) == Choice(t, u, x)
  {
    forall p | 0 <= p < |s.order|
      ensures t.order[p] == s.order[p] && Choice(t, s.order[p], x) == Choice(s, s.order[p], x)
    {
      assert RecordOk(s, p);
    }
    assert t.order[|s.order|] == u;
  }

  /** Deactivating edges and changing matrices keeps the rest of the graph in order, as long
      as no active edge still touches the eliminated node. */
  lemma Thinning(s: State, t: State, u: nat)
    requires GraphOk(s) && Eliminates(s, t, u)
    requires forall i :: 0 <= i < |s.nodes| ==> |t.nodes[i].unary| == |s.nodes[i].unary|
    requires forall j :: 0 <= j < |s.edges| && t.edges[j].active ==>
               && t.edges[j] == s.edges[j].(cost := t.edges[j].cost)
               && !Touches(t.edges[j], u) && Square(t.edges[j].cost, s.stride)
    ensures forall i :: 0 <= i < |t.nodes| ==> NodeOk(t.nodes[i], t.stride)
    ensures forall k {:trigger EdgeOk(t, t.edges[k])} :: 0 <= k < |t.edges| ==> EdgeOk(t, t.edges[k])
    ensures forall j, k {:trigger Apart(t.edges[j], t.edges[k])} ::
              0 <= j < |t.edges| && 0 <= k < |t.edges| && j != k ==> Apart(t.edges[j], t.edges[k])
  {
    forall k | 0 <= k < |t.edges| ensures EdgeOk(t, t.edges[k]) {
      assert EdgeOk(s, s.edges[k]);
    }
    forall j, k | 0 <= j < |t.edges| && 0 <= k < |t.edges| && j != k
      ensures Apart(t.edges[j], t.edges[k])
    {
      assert Apart(s.edges[j], s.edges[k]);
    }
  }

  /** Dropping an edge slot from the active ones. */
  lemma EdgeFlagsDrop(edges: seq<Edge>, edges': seq<Edge>, k: nat)
    requires k < |edges| == |edges'| && edges[k].active && !edges'[k].active
    requires forall j :: 0 <= j < |edges| && j != k ==> edges'[j].active == edges[j].active
    ensures Total(EdgeFlags(edges')) == Total(EdgeFlags(edges)) - 1
  {
    TotalUpdate(EdgeFlags(edges), k, 0);
    assert EdgeFlags(edges') == EdgeFlags(edges)[k := 0];
  }

  // -------------------------------------------------------------------- R0

  function ReduceR0(s: State, u: nat): State
    requires u < |s.nodes|
  {
    var m := FirstMin(s.nodes[u].unary);
    s.(offset := Add(s.offset, m.value),
       nodes := s.nodes[u := s.nodes[u].(active := false, kind := R0, table := [m.index])],
       order := s.order + [u])
  }

  lemma R0Structure(s: State, u: nat)
    requires WF(s) && u < |s.nodes| && s.nodes[u].active && Incident(s, u) == []
    ensures var t := ReduceR0(s, u); Eliminates(s, t, u) && WF(t)
  {
    var t := ReduceR0(s, u);
    IncidentToMember(s.edges, u, |s.edges|);
    assert Eliminates(s, t, u);
    EliminatesOrder(s, t, u);
    forall k | 0 <= k < |t.edges| ensures EdgeOk(t, t.edges[k]) {
      assert EdgeOk(s, s.edges[k]) && !Touches(s.edges[k], u);
    }
  }

  lemma R0Fits(s: State, w: Budget, u: nat)
    requires GraphOk(s) && Fits(s, w) && u < |s.nodes| && s.nodes[u].active
    ensures Safe(ReduceR0(s, u))
    ensures AddChecked(s.offset, FirstMin(s.nodes[u].unary).value) == Sum(ReduceR0(s, u).offset)
    ensures ToExt(ReduceR0(s, u).offset)
            == Plus(ToExt(s.offset), ToExt(FirstMin(s.nodes[u].unary).value))
  {
    var t := ReduceR0(s, u);
    var w' := w.(node := w.node[u := 0], offset := w.offset + w.node[u]);
    TotalUpdate(w.node, u, 0);
    assert UnaryFits(s.nodes[u], w.node[u]);
    AddExact(s.offset, FirstMin(s.nodes[u].unary).value, w.offset, w.node[u]);
    forall i | 0 <= i < |t.nodes| ensures UnaryFits(t.nodes[i], w'.node[i]) {
      assert UnaryFits(s.nodes[i], w.node[i]);
    }
    forall k | 0 <= k < |t.edges| ensures MatrixFits(t, t.edges[k], w'.edge[k]) {
      assert MatrixFits(s, s.edges[k], w.edge[k]);
    }
    assert Fits(t, w');
  }

  lemma R0Objective(s: State, u: nat, x: Assignment)
    requires GraphOk(s) && Safe(s) && u < |s.nodes| && s.nodes[u].active && Valid(s, x)
    ensures var t := ReduceR0(s, u);
            && Le(Objective(t, x), Objective(s, x))
            && (At(x, u) == Choice(t, u, x) ==> Objective(t, x) == Objective(s, x))
  {
    var w :| Fits(s, w);
    var t := ReduceR0(s, u);
    R0Fits(s, w, u);
    assert UnaryFits(s.nodes[u], w.node[u]);
    TotalMember(w.node, u);
    ExtSumExtract(NodeTerms(s, x), u);
    assert NodeTerms(t, x) == NodeTerms(s, x)[u := 0];
    assert EdgeTerms(t, x) == EdgeTerms(s, x);
  }

  /** Eliminating an isolated node. */
  lemma R0Preserves(s: State, u: nat)
    requires WF(s) && Safe(s) && u < |s.nodes| && s.nodes[u].active && Incident(s, u) == []
    ensures var t := ReduceR0(s, u);
            Eliminates(s, t, u) && WF(t) && Safe(t) && Faithful(s, t, u) && Below(s, t)
  {
    R0Structure(s, u);
    var w :| Fits(s, w);
    R0Fits(s, w, u);
    forall x | Valid(s, x)
      ensures var t := ReduceR0(s, u);
              && Le(Objective(t, x), Objective(s, x))
              && (At(x, u) == Choice(t, u, x) ==> Objective(t, x) == Objective(s, x))
    {
      R0Objective(s, u, x);
    }
  }

  // -------------------------------------------------------------------- R1

  /** What node `u` and edge `k` cost together when the neighbour takes value `j`. */
  function R1Row(s: State, u: nat, k: nat, j: nat): seq<int> {
    if u < |s.nodes| && k < |s.edges| then
      var unary := s.nodes[u].unary;
      seq(|unary|, v requires 0 <= v < |unary| => Add(unary[v], CostAt(s.edges[k], u, v, j)))
    else []
  }

  function R1Min(s: State, u: nat, k: nat, j: nat): MinArg { FirstMin(R1Row(s, u, k, j)) }

  function R1Unary(s: State, u: nat, k: nat, unary: seq<int>): (merged: seq<int>)
    ensures |merged| == |unary|
  {
    seq(|unary|, j requires 0 <= j < |unary| => Add(unary[j], R1Min(s, u, k, j).value))
  }

  function R1Table(s: State, u: nat, k: nat, values: nat): (table: seq<nat>)
    ensures |table| == values
  {
    seq(values, j requires 0 <= j => R1Min(s, u, k, j).index)
  }

  function ReduceR1(s: State, u: nat, k: nat): State
    requires u < |s.nodes| && k < |s.edges|
    requires Other(s.edges[k], u) < |s.nodes|
  {
    var w := Other(s.edges[k], u);
    s.(nodes := s.nodes[w := s.nodes[w].(unary := R1Unary(s, u, k, s.nodes[w].unary))]
                       [u := s.nodes[u].(active := false, kind := R1, first := w,
                                         table := R1Table(s, u, k, |s.nodes[w].unary|))],
       edges := s.edges[k := s.edges[k].(active := false)],
       edgeCount := if s.edgeCount > 0 then s.edgeCount - 1 else 0,
       order := s.order + [u])
  }

  /** Within budget, every entry of a row is an exact sum. */
  lemma R1EntryExact(s: State, w: Budget, u: nat, k: nat, j: nat, v: nat)
    requires GraphOk(s) && Fits(s, w) && u < |s.nodes| && s.nodes[u].active
    requires k < |s.edges| && Touches(s.edges[k], u)
    requires Other(s.edges[k], u) < |s.nodes| && j < s.nodes[Other(s.edges[k], u)].domain
    requires v < s.nodes[u].domain
    ensures var first, second := s.nodes[u].unary[v], CostAt(s.edges[k], u, v, j);
            && AddChecked(first, second) == Sum(R1Row(s, u, k, j)[v])
            && ToExt(R1Row(s, u, k, j)[v]) == Plus(ToExt(first), ToExt(second))
            && Bounded(R1Row(s, u, k, j)[v], w.node[u] + w.edge[k])
  {
    TotalMember(w.node, u);
    TotalMember(w.edge, k);
    assert UnaryFits(s.nodes[u], w.node[u]);
    assert EdgeOk(s, s.edges[k]) && MatrixFits(s, s.edges[k], w.edge[k]);
    AddExact(s.nodes[u].unary[v], CostAt(s.edges[k], u, v, j), w.node[u], w.edge[k]);
  }

  /** The minimum over the eliminated node, exactly. */
  lemma R1MinExact(s: State, w: Budget, u: nat, k: nat, j: nat)
    requires GraphOk(s) && Fits(s, w) && u < |s.nodes| && s.nodes[u].active
    requires k < |s.edges| && Touches(s.edges[k], u)
    requires Other(s.edges[k], u) < |s.nodes| && j < s.nodes[Other(s.edges[k], u)].domain
    ensures var m := R1Min(s, u, k, j);
            && Bounded(m.value, w.node[u] + w.edge[k])
            && m.index < s.nodes[u].domain
            && ToExt(m.value) == Plus(ToExt(s.nodes[u].unary[m.index]),
                                      ToExt(CostAt(s.edges[k], u, m.index, j)))
            && forall v :: 0 <= v < s.nodes[u].domain ==>
                 Le(ToExt(m.value), Plus(ToExt(s.nodes[u].unary[v]), ToExt(CostAt(s.edges[k], u, v, j))))
  {
    var m := R1Min(s, u, k, j);
    R1EntryExact(s, w, u, k, j, m.index);
    forall v | 0 <= v < s.nodes[u].domain
      ensures Le(ToExt(m.value), Plus(ToExt(s.nodes[u].unary[v]), ToExt(CostAt(s.edges[k], u, v, j))))
    {
      R1EntryExact(s, w, u, k, j, v);
      assert m.value <= R1Row(s, u, k, j)[v];
      assert R1Row(s, u, k, j)[v] <= INF;
    }
  }

  /** A degree-one node has exactly one active edge. */
  lemma OnlyIncident(s: State, u: nat, k: nat)
    requires Incident(s, u) == [k]
    ensures k < |s.edges| && Touches(s.edges[k], u)
    ensures forall j :: 0 <= j < |s.edges| && j != k ==> !Touches(s.edges[j], u)
  {
    IncidentToMember(s.edges, u, |s.edges|);
    assert k in Incident(s, u);
  }

  lemma R1Eliminates(s: State, u: nat, k: nat)
    requires WF(s) && u < |s.nodes| && s.nodes[u].active
    requires k < |s.edges| && Touches(s.edges[k], u)
    ensures Other(s.edges[k], u) < |s.nodes| && Eliminates(s, ReduceR1(s, u, k), u)
  {
    assert EdgeOk(s, s.edges[k]);
    var t := ReduceR1(s, u, k);
    assert t.order[..|s.order| + 1] == t.order;
    assert Other(s.edges[k], u) !in t.order;
  }

  lemma R1Structure(s: State, u: nat, k: nat)
    requires WF(s) && u < |s.nodes| && s.nodes[u].active && Incident(s, u) == [k]
    ensures k < |s.edges| && Touches(s.edges[k], u) && Other(s.edges[k], u) < |s.nodes|
    ensures var t := ReduceR1(s, u, k); Eliminates(s, t, u) && WF(t)
  {
    OnlyIncident(s, u, k);
    R1Eliminates(s, u, k);
    var t := ReduceR1(s, u, k);
    EliminatesOrder(s, t, u);
    forall j | 0 <= j < |s.edges| && t.edges[j].active
      ensures t.edges[j] == s.edges[j] && !Touches(t.edges[j], u) && Square(t.edges[j].cost, s.stride)
    {
      assert EdgeOk(s, s.edges[j]);
    }
    Thinning(s, t, u);
    EdgeFlagsDrop(s.edges, t.edges, k);
  }

  /** The neighbour's merged entry is the exact minimum over the eliminated node. */
  lemma R1Merged(s: State, w: Budget, u: nat, k: nat, j: nat)
    requires GraphOk(s) && Fits(s, w) && u < |s.nodes| && s.nodes[u].active
    requires k < |s.edges| && Touches(s.edges[k], u) && Other(s.edges[k], u) < |s.nodes|
    requires j < s.nodes[Other(s.edges[k], u)].domain
    ensures var n := Other(s.edges[k], u); var t := ReduceR1(s, u, k); var m := R1Min(s, u, k, j);
            && Bounded(t.nodes[n].unary[j], w.node[n] + w.node[u] + w.edge[k])
            && ToExt(t.nodes[n].unary[j]) == Plus(ToExt(s.nodes[n].unary[j]), ToExt(m.value))
            && m.index < s.nodes[u].domain
            && ToExt(m.value) == Plus(ToExt(s.nodes[u].unary[m.index]),
                                      ToExt(CostAt(s.edges[k], u, m.index, j)))
            && forall v :: 0 <= v < s.nodes[u].domain ==>
                 Le(ToExt(m.value), Plus(ToExt(s.nodes[u].unary[v]), ToExt(CostAt(s.edges[k], u, v, j))))
  {
    assert EdgeOk(s, s.edges[k]);
    var n := Other(s.edges[k], u);
    R1MinExact(s, w, u, k, j);
    assert UnaryFits(s.nodes[n], w.node[n]);
    TotalPair(w.node, u, n);
    TotalMember(w.edge, k);
    AddExact(s.nodes[n].unary[j], R1Min(s, u, k, j).value, w.node[n], w.node[u] + w.edge[k]);
  }

  /** The budgets after R1: those of the node and its edge pass to the neighbour. */
  function R1Budget(w: Budget, u: nat, n: nat, k: nat): (w': Budget)
    requires u < |w.node| && n < |w.node| && u != n && k < |w.edge|
    ensures Spent(w') == Spent(w)
  {
    TotalUpdate(w.node, u, 0);
    TotalUpdate(w.node[u := 0], n, w.node[n] + w.node[u] + w.edge[k]);
    TotalUpdate(w.edge, k, 0);
    w.(node := w.node[u := 0][n := w.node[n] + w.node[u] + w.edge[k]], edge := w.edge[k := 0])
  }

  lemma R1Fits(s: State, w: Budget, u: nat, k: nat)
    requires GraphOk(s) && Fits(s, w) && u < |s.nodes| && s.nodes[u].active
    requires k < |s.edges| && Touches(s.edges[k], u) && Other(s.edges[k], u) < |s.nodes|
    ensures Safe(ReduceR1(s, u, k))
  {
    var t := ReduceR1(s, u, k);
    assert EdgeOk(s, s.edges[k]);
    var n := Other(s.edges[k], u);
    var w' := R1Budget(w, u, n, k);
    forall i | 0 <= i < |t.nodes| ensures UnaryFits(t.nodes[i], w'.node[i]) {
      assert UnaryFits(s.nodes[i], w.node[i]);
      if i == n {
        forall j | 0 <= j < s.nodes[n].domain ensures Bounded(t.nodes[n].unary[j], w'.node[n]) {
          R1Merged(s, w, u, k, j);
        }
      }
    }
    forall j | 0 <= j < |t.edges| ensures MatrixFits(t, t.edges[j], w'.edge[j]) {
      assert MatrixFits(s, s.edges[j], w.edge[j]);
    }
    assert Fits(t, w');
  }

  /** Replacing part of a sum by its minimum. */
  lemma Replace(rest: Ext, kept: Ext, part: Ext, minimum: Ext)
    requires Le(minimum, part)
    ensures Le(Plus(rest, Plus(kept, minimum)), Plus(rest, Plus(kept, part)))
  {
  }

  lemma Regroup(offset: Ext, nodes: Ext, a: Ext, b: Ext, edges: Ext, c: Ext)
    ensures Plus(offset, Plus(Plus(nodes, Plus(a, b)), Plus(edges, c)))
            == Plus(Plus(offset, Plus(nodes, edges)), Plus(a, Plus(b, c)))
  {
  }

  lemma RegroupOne(offset: Ext, nodes: Ext, a: Ext, edges: Ext)
    ensures Plus(offset, Plus(Plus(nodes, a), edges)) == Plus(Plus(offset, Plus(nodes, edges)), a)
    ensures Plus(offset, Plus(nodes, Plus(edges, a))) == Plus(Plus(offset, Plus(nodes, edges)), a)
  {
  }

  /** `after` is `before` except that term `u` became zero and term `n` may have changed. */
  ghost predicate Moved(before: seq<int>, after: seq<int>, u: nat, n: nat) {
    && u < |before| == |after| && n < |before| && after[u] == 0
    && forall i :: 0 <= i < |before| && i != u && i != n ==> after[i] == before[i]
  }

  lemma MovedSums(before: seq<int>, after: seq<int>, u: nat, n: nat) returns (rest: Ext)
    requires Moved(before, after, u, n) && u != n
    ensures ExtSum(before) == Plus(rest, Plus(ToExt(before[n]), ToExt(before[u])))
    ensures ExtSum(after) == Plus(rest, ToExt(after[n]))
  {
    ExtSumExtract(before, u);
    ExtSumExtract(before[u := 0], n);
    ExtSumExtract(after, n);
    assert after[n := 0] == before[u := 0][n := 0];
    rest := ExtSum(after[n := 0]);
  }

  lemma DroppedSum(before: seq<int>, after: seq<int>, k: nat)
    requires Moved(before, after, k, k)
    ensures ExtSum(before) == Plus(ExtSum(after), ToExt(before[k]))
  {
    ExtSumExtract(before, k);
    assert after == before[k := 0];
  }

  lemma R1Terms(s: State, u: nat, k: nat, x: Assignment)
    requires GraphOk(s) && u < |s.nodes| && s.nodes[u].active && Valid(s, x)
    requires k < |s.edges| && Touches(s.edges[k], u) && Other(s.edges[k], u) < |s.nodes|
    ensures var t := ReduceR1(s, u, k); var n := Other(s.edges[k], u);
            && n != u && |t.nodes[n].unary| == s.nodes[n].domain
            && NodeTerms(s, x)[u] == s.nodes[u].unary[x[u]]
            && NodeTerms(s, x)[n] == s.nodes[n].unary[x[n]]
            && NodeTerms(t, x)[n] == t.nodes[n].unary[x[n]]
            && EdgeTerms(s, x)[k] == CostAt(s.edges[k], u, x[u], x[n])
            && Moved(NodeTerms(s, x), NodeTerms(t, x), u, n)
            && Moved(EdgeTerms(s, x), EdgeTerms(t, x), k, k)
            && Choice(t, u, x) == R1Min(s, u, k, x[n]).index
  {
    assert EdgeOk(s, s.edges[k]);
  }

  /** The old and the new objective share everything but the terms R1 merges. */
  lemma R1Split(s: State, u: nat, k: nat, x: Assignment) returns (rest: Ext)
    requires GraphOk(s) && u < |s.nodes| && s.nodes[u].active && Valid(s, x)
    requires k < |s.edges| && Touches(s.edges[k], u) && Other(s.edges[k], u) < |s.nodes|
    ensures var t := ReduceR1(s, u, k); var n := Other(s.edges[k], u);
            && |t.nodes[n].unary| == s.nodes[n].domain
            && Objective(s, x) == Plus(rest, Plus(ToExt(s.nodes[n].unary[x[n]]),
                 Plus(ToExt(s.nodes[u].unary[x[u]]), ToExt(CostAt(s.edges[k], u, x[u], x[n])))))
            && Objective(t, x) == Plus(rest, ToExt(t.nodes[n].unary[x[n]]))
            && Choice(t, u, x) == R1Min(s, u, k, x[n]).index
  {
    var t := ReduceR1(s, u, k);
    var n := Other(s.edges[k], u);
    R1Terms(s, u, k, x);
    var shared := MovedSums(NodeTerms(s, x), NodeTerms(t, x), u, n);
    DroppedSum(EdgeTerms(s, x), EdgeTerms(t, x), k);
    rest := Plus(ToExt(s.offset), Plus(shared, ExtSum(EdgeTerms(t, x))));
    Regroup(ToExt(s.offset), shared, ToExt(s.nodes[n].unary[x[n]]), ToExt(s.nodes[u].unary[x[u]]),
            ExtSum(EdgeTerms(t, x)), ToExt(CostAt(s.edges[k], u, x[u], x[n])));
    RegroupOne(ToExt(s.offset), shared, ToExt(t.nodes[n].unary[x[n]]), ExtSum(EdgeTerms(t, x)));
  }

  lemma R1Objective(s: State, w: Budget, u: nat, k: nat, x: Assignment)
    requires GraphOk(s) && Fits(s, w) && u < |s.nodes| && s.nodes[u].active && Valid(s, x)
    requires k < |s.edges| && Touches(s.edges[k], u) && Other(s.edges[k], u) < |s.nodes|
    ensures var t := ReduceR1(s, u, k);
            && Le(Objective(t, x), Objective(s, x))
            && (At(x, u) == Choice(t, u, x) ==> Objective(t, x) == Objective(s, x))
  {
    var n := Other(s.edges[k], u);
    var rest := R1Split(s, u, k, x);
    R1Merged(s, w, u, k, x[n]);
    Replace(rest, ToExt(s.nodes[n].unary[x[n]]),
            Plus(ToExt(s.nodes[u].unary[x[u]]), ToExt(CostAt(s.edges[k], u, x[u], x[n]))),
            ToExt(R1Min(s, u, k, x[n]).value));
  }

  /** Eliminating a degree-one node. */
  lemma R1Preserves(s: State, u: nat, k: nat)
    requires WF(s) && Safe(s) && u < |s.nodes| && s.nodes[u].active && Incident(s, u) == [k]
    ensures k < |s.edges| && Other(s.edges[k], u) < |s.nodes|
    ensures var t := ReduceR1(s, u, k);
            Eliminates(s, t, u) && WF(t) && Safe(t) && Faithful(s, t, u) && Below(s, t)
  {
    R1Structure(s, u, k);
    var w :| Fits(s, w);
    R1Fits(s, w, u, k);
    forall x | Valid(s, x)
      ensures var t := ReduceR1(s, u, k);
              && Le(Objective(t, x), Objective(s, x))
              && (At(x, u) == Choice(t, u, x) ==> Objective(t, x) == Objective(s, x))
    {
      R1Objective(s, w, u, k, x);
    }
  }
}
