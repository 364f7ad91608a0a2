/** What an RN score means (software/pbqp/pbqp.cpp: ReduceRN): the least cost of the problem around a
    node, its star, among all assignments that give the node one value. */
module Stars {
  import opened Costs
  import opened Graphs
  import opened Reductions
  import opened Runs
  import opened Heuristic

  /** One of the first `k` edge slots joins `u` to `i`. */
  ghost predicate Adjoins(s: State, u: nat, k: nat, i: nat)
    requires k <= |s.edges|
  {
    exists j :: 0 <= j < k && Touches(s.edges[j], u) && Other(s.edges[j], u) == i
  }

  /** Only `u`, its edges among the first `k` slots and the neighbours these reach, at no offset. */
  ghost function Star(s: State, u: nat, k: nat): State
    requires k <= |s.edges|
  {
    s.(offset := 0,
       nodes := seq(|s.nodes|, i requires 0 <= i < |s.nodes| =>
                  s.nodes[i].(active := i == u || Adjoins(s, u, k, i))),
       edges := seq(|s.edges|, j requires 0 <= j < |s.edges| =>
                  s.edges[j].(active := j < k && Touches(s.edges[j], u))))
  }

  /** The cost of a node, its edges and its neighbours under an assignment. */
  ghost function StarCost(s: State, u: nat, x: Assignment): Ext { Objective(Star(s, u, |s.edges|), x) }

  lemma PlusZero(a: Ext, b: Ext)
    ensures Plus(Fin(0), Plus(a, b)) == Plus(a, b)
  {
  }

  lemma StarObjective(s: State, u: nat, k: nat, x: Assignment)
    requires k <= |s.edges|
    ensures Objective(Star(s, u, k), x)
            == Plus(ExtSum(NodeTerms(Star(s, u, k), x)), ExtSum(EdgeTerms(Star(s, u, k), x)))
  {
    PlusZero(ExtSum(NodeTerms(Star(s, u, k), x)), ExtSum(EdgeTerms(Star(s, u, k), x)));
  }

  /** Terms of a star, one by one. */
  lemma StarNode(s: State, u: nat, k: nat, x: Assignment, i: nat)
    requires k <= |s.edges| && i < |s.nodes|
    ensures NodeTerms(Star(s, u, k), x)[i]
            == if (i == u || Adjoins(s, u, k, i)) && At(x, i) < |s.nodes[i].unary| then s.nodes[i].unary[At(x, i)]
                else 0
  {
  }

  lemma StarEdge(s: State, u: nat, k: nat, x: Assignment, j: nat)
    requires k <= |s.edges| && j < |s.edges|
    ensures EdgeTerms(Star(s, u, k), x)[j]
            == if j < k && Touches(s.edges[j], u)
               then Entry(s.edges[j].cost, At(x, s.edges[j].first), At(x, s.edges[j].second)) else 0
  {
  }

  /** A slot that does not touch `u` adds nothing. */
  lemma StarStays(s: State, u: nat, k: nat, x: Assignment)
    requires k < |s.edges| && !Touches(s.edges[k], u)
    ensures Objective(Star(s, u, k + 1), x) == Objective(Star(s, u, k), x)
  {
    forall i | 0 <= i < |s.nodes|
      ensures NodeTerms(Star(s, u, k + 1), x)[i] == NodeTerms(Star(s, u, k), x)[i]
    {
      StarNode(s, u, k, x, i);
      StarNode(s, u, k + 1, x, i);
      assert Adjoins(s, u, k + 1, i) <==> Adjoins(s, u, k, i);
    }
    forall j | 0 <= j < |s.edges|
      ensures EdgeTerms(Star(s, u, k + 1), x)[j] == EdgeTerms(Star(s, u, k), x)[j]
    {
      StarEdge(s, u, k, x, j);
      StarEdge(s, u, k + 1, x, j);
    }
    assert NodeTerms(Star(s, u, k + 1), x) == NodeTerms(Star(s, u, k), x);
    assert EdgeTerms(Star(s, u, k + 1), x) == EdgeTerms(Star(s, u, k), x);
  }

  /** A node that no edge so far reaches. */
  lemma NotAdjoined(s: State, u: nat, k: nat)
    requires GraphOk(s) && k < |s.edges| && Touches(s.edges[k], u)
    ensures var n := Other(s.edges[k], u);
            && n < |s.nodes| && n != u && !Adjoins(s, u, k, n)
            && forall i :: i != n ==> (Adjoins(s, u, k + 1, i) <==> Adjoins(s, u, k, i))
  {
    assert EdgeOk(s, s.edges[k]);
    NextUntaken(s, u, k);
  }

  /** A slot that touches `u` adds its entry and the neighbour's unary cost. */
  lemma StarGrows(s: State, u: nat, k: nat, x: Assignment)
    requires GraphOk(s) && Valid(s, x) && u < |s.nodes| && k < |s.edges| && Touches(s.edges[k], u)
    ensures var n := Other(s.edges[k], u);
            && n < |s.nodes| && x[n] < |s.nodes[n].unary|
            && Objective(Star(s, u, k + 1), x)
               == Plus(Objective(Star(s, u, k), x),
                       Plus(ToExt(CostAt(s.edges[k], u, x[u], x[n])), ToExt(s.nodes[n].unary[x[n]])))
  {
    var n := Other(s.edges[k], u);
    NotAdjoined(s, u, k);
    var nodes, edges := NodeTerms(Star(s, u, k + 1), x), EdgeTerms(Star(s, u, k + 1), x);
    NodesGrow(s, u, k, x);
    EdgesGrow(s, u, k, x);
    StarObjective(s, u, k, x);
    StarObjective(s, u, k + 1, x);
    Extracted(nodes, n, edges, k);
  }

  lemma Extracted(nodes: seq<int>, n: nat, edges: seq<int>, k: nat)
    requires n < |nodes| && k < |edges|
    ensures Plus(ExtSum(nodes), ExtSum(edges))
            == Plus(Plus(ExtSum(nodes[n := 0]), ExtSum(edges[k := 0])), Plus(ToExt(edges[k]), ToExt(nodes[n])))
  {
    ExtSumExtract(nodes, n);
    ExtSumExtract(edges, k);
    Regroup(ToExt(nodes[n]), ExtSum(nodes[n := 0]), ToExt(edges[k]), ExtSum(edges[k := 0]));
  }

  lemma Regroup(a: Ext, nodes: Ext, b: Ext, edges: Ext)
    ensures Plus(Plus(a, nodes), Plus(b, edges)) == Plus(Plus(nodes, edges), Plus(b, a))
  {
  }

  lemma NodesGrow(s: State, u: nat, k: nat, x: Assignment)
    requires GraphOk(s) && Valid(s, x) && u < |s.nodes| && k < |s.edges| && Touches(s.edges[k], u)
    ensures var n := Other(s.edges[k], u);
            && n < |s.nodes| && x[n] < |s.nodes[n].unary|
            && NodeTerms(Star(s, u, k + 1), x)[n] == s.nodes[n].unary[x[n]]
            && NodeTerms(Star(s, u, k + 1), x)[n := 0] == NodeTerms(Star(s, u, k), x)
  {
    var n := Other(s.edges[k], u);
    NotAdjoined(s, u, k);
    var more, terms := NodeTerms(Star(s, u, k + 1), x), NodeTerms(Star(s, u, k), x);
    assert Adjoins(s, u, k + 1, n);
    StarNode(s, u, k + 1, x, n);
    forall i | 0 <= i < |s.nodes| ensures more[n := 0][i] == terms[i] {
      StarNode(s, u, k, x, i);
      StarNode(s, u, k + 1, x, i);
    }
    assert more[n := 0] == terms;
  }

  lemma EdgesGrow(s: State, u: nat, k: nat, x: Assignment)
    requires GraphOk(s) && Valid(s, x) && u < |s.nodes| && k < |s.edges| && Touches(s.edges[k], u)
    requires Other(s.edges[k], u) < |s.nodes|
    ensures EdgeTerms(Star(s, u, k + 1), x)[k] == CostAt(s.edges[k], u, x[u], x[Other(s.edges[k], u)])
    ensures EdgeTerms(Star(s, u, k + 1), x)[k := 0] == EdgeTerms(Star(s, u, k), x)
  {
    var more, terms := EdgeTerms(Star(s, u, k + 1), x), EdgeTerms(Star(s, u, k), x);
    StarEdge(s, u, k + 1, x, k);
    forall j | 0 <= j < |s.edges| ensures more[k := 0][j] == terms[j] {
      StarEdge(s, u, k, x, j);
      StarEdge(s, u, k + 1, x, j);
    }
    assert more[k := 0] == terms;
  }

  /** A node outside the star may take any value. */
  lemma StarForgets(s: State, u: nat, k: nat, x: Assignment, n: nat, o: nat)
    requires k <= |s.edges| && |x| == |s.nodes| && n < |x| && n != u && !Adjoins(s, u, k, n)
    ensures Objective(Star(s, u, k), x[n := o]) == Objective(Star(s, u, k), x)
  {
    var y := x[n := o];
    forall i | 0 <= i < |s.nodes|
      ensures NodeTerms(Star(s, u, k), y)[i] == NodeTerms(Star(s, u, k), x)[i]
    {
      StarNode(s, u, k, x, i);
      StarNode(s, u, k, y, i);
    }
    forall j | 0 <= j < |s.edges|
      ensures EdgeTerms(Star(s, u, k), y)[j] == EdgeTerms(Star(s, u, k), x)[j]
    {
      StarEdge(s, u, k, x, j);
      StarEdge(s, u, k, y, j);
      if j < k && Touches(s.edges[j], u) {
        assert Other(s.edges[j], u) != n;
      }
    }
    assert NodeTerms(Star(s, u, k), y) == NodeTerms(Star(s, u, k), x);
    assert EdgeTerms(Star(s, u, k), y) == EdgeTerms(Star(s, u, k), x);
  }

  // ------------------------------------------------------------------- scores

  /** The projection is the least entry plus unary cost over the neighbour's values. */
  lemma ProjectionLeast(s: State, u: nat, v: nat, k: nat) returns (o: nat)
    requires Good(s) && u < |s.nodes| && s.nodes[u].active && v < s.nodes[u].domain
    requires k < |s.edges| && Touches(s.edges[k], u) && Other(s.edges[k], u) < |s.nodes|
    ensures var n := s.nodes[Other(s.edges[k], u)]; var p := ToExt(Projection(s, u, v, k));
            && o < n.domain == |n.unary| && p == Plus(ToExt(CostAt(s.edges[k], u, v, o)), ToExt(n.unary[o]))
            && forall j :: 0 <= j < n.domain ==> Le(p, Plus(ToExt(CostAt(s.edges[k], u, v, j)), ToExt(n.unary[j])))
  {
    var w :| Fits(s, w);
    var n := Other(s.edges[k], u);
    assert EdgeOk(s, s.edges[k]) && MatrixFits(s, s.edges[k], w.edge[k]) && UnaryFits(s.nodes[n], w.node[n]);
    TotalMember(w.node, n);
    TotalMember(w.edge, k);
    var unary := s.nodes[n].unary;
    var sums := Kernels.Sums2(Slice(s.edges[k], u, v, |unary|), unary);
    forall j | 0 <= j < |unary|
      ensures ToExt(sums[j]) == Plus(ToExt(CostAt(s.edges[k], u, v, j)), ToExt(unary[j])) && sums[j] <= INF
    {
      AddExact(CostAt(s.edges[k], u, v, j), unary[j], w.edge[k], w.node[n]);
    }
    var m := FirstMin(sums);
    assert IsFirstMin(sums, m);
    o := m.index;
    forall j | 0 <= j < |unary|
      ensures Le(ToExt(m.value), Plus(ToExt(CostAt(s.edges[k], u, v, j)), ToExt(unary[j])))
    {
      assert m.value <= sums[j] <= INF;
    }
  }

  /** `low` is the least cost of the star over the first `k` slots when `u` has value `v`. */
  ghost predicate LeastStar(s: State, u: nat, v: nat, k: nat, low: Ext)
    requires k <= |s.edges|
  {
    && (forall x {:trigger Valid(s, x)} :: Valid(s, x) && At(x, u) == v ==> Le(low, Objective(Star(s, u, k), x)))
    && exists x :: Valid(s, x) && At(x, u) == v && Objective(Star(s, u, k), x) == low
  }

  lemma StarAlone(s: State, u: nat, x: Assignment)
    requires GraphOk(s) && Valid(s, x) && u < |s.nodes|
    ensures Objective(Star(s, u, 0), x) == ToExt(s.nodes[u].unary[x[u]])
  {
    var nodes, edges := NodeTerms(Star(s, u, 0), x), EdgeTerms(Star(s, u, 0), x);
    forall i | 0 <= i < |nodes| && i != u ensures nodes[i] == 0 {
      StarNode(s, u, 0, x, i);
    }
    StarNode(s, u, 0, x, u);
    forall j | 0 <= j < |edges| ensures edges[j] == 0 {
      StarEdge(s, u, 0, x, j);
    }
    ExtSumExtract(nodes, u);
    ExtSumZero(nodes[u := 0]);
    ExtSumZero(edges);
    StarObjective(s, u, 0, x);
  }

  /** A start for assignments that give `u` the value `v`. */
  lemma StarStart(s: State, u: nat, v: nat)
    requires GraphOk(s) && u < |s.nodes| && v < s.nodes[u].domain
    ensures LeastStar(s, u, v, 0, ToExt(s.nodes[u].unary[v]))
  {
    var x := seq(|s.nodes|, i => 0)[u := v];
    assert Valid(s, x) && At(x, u) == v;
    StarAlone(s, u, x);
    forall x {:trigger Valid(s, x)} | Valid(s, x) && At(x, u) == v
      ensures Le(ToExt(s.nodes[u].unary[v]), Objective(Star(s, u, 0), x))
    {
      StarAlone(s, u, x);
    }
  }

  lemma PlusLe(a: Ext, b: Ext, c: Ext, d: Ext)
    requires Le(a, b) && Le(c, d)
    ensures Le(Plus(a, c), Plus(b, d))
  {
  }

  lemma StarAbove(s: State, u: nat, k: nat, low: Ext, p: Ext, z: Assignment)
    requires GraphOk(s) && Valid(s, z) && u < |s.nodes| && k < |s.edges| && Touches(s.edges[k], u)
    requires Le(low, Objective(Star(s, u, k), z)) && Other(s.edges[k], u) < |s.nodes|
    requires forall j {:trigger CostAt(s.edges[k], u, z[u], j)} :: 0 <= j < s.nodes[Other(s.edges[k], u)].domain ==>
               Le(p, Plus(ToExt(CostAt(s.edges[k], u, z[u], j)), ToExt(s.nodes[Other(s.edges[k], u)].unary[j])))
    ensures Le(Plus(low, p), Objective(Star(s, u, k + 1), z))
  {
    var n := Other(s.edges[k], u);
    StarGrows(s, u, k, z);
    PlusLe(low, Objective(Star(s, u, k), z), p,
           Plus(ToExt(CostAt(s.edges[k], u, z[u], z[n])), ToExt(s.nodes[n].unary[z[n]])));
  }

  lemma StarsAbove(s: State, u: nat, v: nat, k: nat, low: Ext)
    requires Good(s) && u < |s.nodes| && s.nodes[u].active && v < s.nodes[u].domain
    requires k < |s.edges| && Touches(s.edges[k], u) && LeastStar(s, u, v, k, low)
    ensures forall z {:trigger Valid(s, z)} :: Valid(s, z) && At(z, u) == v ==>
              Le(Plus(low, ToExt(Projection(s, u, v, k))), Objective(Star(s, u, k + 1), z))
  {
    NotAdjoined(s, u, k);
    var o := ProjectionLeast(s, u, v, k);
    forall z {:trigger Valid(s, z)} | Valid(s, z) && At(z, u) == v
      ensures Le(Plus(low, ToExt(Projection(s, u, v, k))), Objective(Star(s, u, k + 1), z))
    {
      StarAbove(s, u, k, low, ToExt(Projection(s, u, v, k)), z);
    }
  }

  lemma StarAttained(s: State, u: nat, v: nat, k: nat, x: Assignment) returns (y: Assignment)
    requires Good(s) && u < |s.nodes| && s.nodes[u].active && Valid(s, x) && x[u] == v
    requires k < |s.edges| && Touches(s.edges[k], u)
    ensures Valid(s, y) && y[u] == v
    ensures Objective(Star(s, u, k + 1), y) == Plus(Objective(Star(s, u, k), x), ToExt(Projection(s, u, v, k)))
  {
    var n := Other(s.edges[k], u);
    NotAdjoined(s, u, k);
    var o := ProjectionLeast(s, u, v, k);
    y := x[n := o];
    StarForgets(s, u, k, x, n, o);
    StarGrows(s, u, k, y);
  }

  lemma StarStep(s: State, u: nat, v: nat, k: nat, low: Ext)
    requires Good(s) && u < |s.nodes| && s.nodes[u].active && v < s.nodes[u].domain
    requires k < |s.edges| && Touches(s.edges[k], u) && LeastStar(s, u, v, k, low)
    ensures LeastStar(s, u, v, k + 1, Plus(low, ToExt(Projection(s, u, v, k))))
  {
    StarsAbove(s, u, v, k, low);
    var x :| Valid(s, x) && At(x, u) == v && Objective(Star(s, u, k), x) == low;
    var y := StarAttained(s, u, v, k, x);
    assert Valid(s, y) && At(y, u) == v;
  }

  lemma ScoreStep(s: State, u: nat, v: nat, k: nat)
    requires Good(s) && u < |s.nodes| && s.nodes[u].active && v < s.nodes[u].domain && k < |s.edges|
    ensures var score := ToExt(RnScore(s, u, v, k));
            ToExt(RnScore(s, u, v, k + 1))
            == if Touches(s.edges[k], u) then Plus(score, ToExt(Projection(s, u, v, k))) else score
  {
    if Touches(s.edges[k], u) {
      ScoreAccepted(s, u, v, k);
    }
  }

  type Minimum = (nat, Ext) -> bool

  ghost predicate Weighed(k: nat, low: Ext) { true }

  /** Whatever starts at the unary cost and follows the projections holds of every score. */
  lemma {:induction false} ScoreLeastTo(s: State, u: nat, v: nat, k: nat, least: Minimum)
    requires Good(s) && u < |s.nodes| && s.nodes[u].active && v < s.nodes[u].domain && k <= |s.edges|
    requires least(0, ToExt(s.nodes[u].unary[v]))
    requires forall j: nat, low {:trigger Weighed(j, low)} :: Weighed(j, low) && j < |s.edges| && least(j, low) ==>
               least(j + 1, if Touches(s.edges[j], u) then Plus(low, ToExt(Projection(s, u, v, j))) else low)
    ensures least(k, ToExt(RnScore(s, u, v, k)))
    decreases k
  {
    if k > 0 {
      ScoreLeastTo(s, u, v, k - 1, least);
      ScoreStep(s, u, v, k - 1);
      assert Weighed(k - 1, ToExt(RnScore(s, u, v, k - 1)));
    }
  }

  lemma ScoreLeast(s: State, u: nat, v: nat)
    requires Good(s) && u < |s.nodes| && s.nodes[u].active && v < s.nodes[u].domain
    ensures LeastStar(s, u, v, |s.edges|, ToExt(RnScore(s, u, v, |s.edges|)))
  {
    var least: Minimum := (k: nat, low: Ext) => k <= |s.edges| && LeastStar(s, u, v, k, low);
    StarStart(s, u, v);
    forall j: nat, low {:trigger Weighed(j, low)} | Weighed(j, low) && j < |s.edges| && least(j, low)
      ensures least(j + 1, if Touches(s.edges[j], u) then Plus(low, ToExt(Projection(s, u, v, j))) else low)
    {
      if Touches(s.edges[j], u) {
        StarStep(s, u, v, j, low);
      } else {
        LeastStays(s, u, v, j, low);
      }
    }
    ScoreLeastTo(s, u, v, |s.edges|, least);
  }

  lemma LeastStays(s: State, u: nat, v: nat, k: nat, low: Ext)
    requires k < |s.edges| && !Touches(s.edges[k], u) && LeastStar(s, u, v, k, low)
    ensures LeastStar(s, u, v, k + 1, low)
  {
    var x :| Valid(s, x) && At(x, u) == v && Objective(Star(s, u, k), x) == low;
    StarStays(s, u, k, x);
    forall x {:trigger Valid(s, x)} | Valid(s, x) && At(x, u) == v ensures Le(low, Objective(Star(s, u, k + 1), x)) {
      StarStays(s, u, k, x);
    }
  }

  /** The final score of a value is the least cost of node, edges and neighbours over all assignments
      that give the node this value. */
  lemma ScoreIsLeast(s: State, u: nat, v: nat)
    requires Good(s) && u < |s.nodes| && s.nodes[u].active && v < s.nodes[u].domain
    ensures forall x {:trigger Valid(s, x)} :: Valid(s, x) && At(x, u) == v ==>
              Le(ToExt(RnScore(s, u, v, |s.edges|)), StarCost(s, u, x))
    ensures exists x :: Valid(s, x) && At(x, u) == v && StarCost(s, u, x) == ToExt(RnScore(s, u, v, |s.edges|))
  {
    ScoreLeast(s, u, v);
    var x :| Valid(s, x) && At(x, u) == v
             && Objective(Star(s, u, |s.edges|), x) == ToExt(RnScore(s, u, v, |s.edges|));
    assert StarCost(s, u, x) == ToExt(RnScore(s, u, v, |s.edges|));
  }

  lemma ScoresBelow(s: State, u: nat)
    requires Good(s) && u < |s.nodes| && s.nodes[u].active
    ensures forall v :: 0 <= v < s.nodes[u].domain ==> RnScore(s, u, v, |s.edges|) <= INF
  {
    var w :| Fits(s, w);
    var w' := ScoreFits(s, w, u, |s.edges|);
    TotalMember(w'.node, u);
  }

  /** The value RN fixes is the first whose cheapest star is cheapest of all: some assignment with this
      value has no costlier star than any other, and a cheaper one than any with a smaller value. */
  lemma ChoiceIsFirstLeast(s: State, u: nat)
    requires Good(s) && u < |s.nodes| && s.nodes[u].active
    ensures RnChoice(s, u) < s.nodes[u].domain
    ensures exists y :: Valid(s, y) && At(y, u) == RnChoice(s, u) && CheapestFirst(s, u, y)
  {
    var scores := RnScores(s, u, |s.edges|);
    var m := FirstMin(scores);
    assert IsFirstMin(scores, m);
    ScoresBelow(s, u);
    ScoreIsLeast(s, u, m.index);
    var y :| Valid(s, y) && At(y, u) == m.index && StarCost(s, u, y) == ToExt(RnScore(s, u, m.index, |s.edges|));
    forall x {:trigger Valid(s, x)} | Valid(s, x)
      ensures Le(StarCost(s, u, y), StarCost(s, u, x)) && (x[u] < y[u] ==> !Le(StarCost(s, u, x), StarCost(s, u, y)))
    {
      ScoreIsLeast(s, u, x[u]);
      assert m.value <= scores[x[u]] <= INF;
    }
    assert CheapestFirst(s, u, y);
  }

  /** No assignment has a cheaper star, and none with a smaller value of `u` one as cheap. */
  ghost predicate CheapestFirst(s: State, u: nat, y: Assignment) {
    forall x {:trigger Valid(s, x)} :: Valid(s, x) ==>
      && Le(StarCost(s, u, y), StarCost(s, u, x))
      && (At(x, u) < At(y, u) ==> !Le(StarCost(s, u, x), StarCost(s, u, y)))
  }
}
