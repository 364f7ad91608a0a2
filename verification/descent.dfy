/** Local descent (software/pbqp/pbqp.cpp: RunLocalDescent): one node at a time is moved to the
    value with the cheapest local score, until a whole sweep changes nothing. */
module Descent {
  import opened Costs
  import opened Graphs
  import opened Runs

  /** The chosen entries of the edges at `u`, zero for the others. */
  function LocalEdges(s: State, x: Assignment, u: nat): (terms: seq<int>)
    ensures |terms| == |s.edges|
  {
    seq(|s.edges|, k requires 0 <= k < |s.edges| =>
      if Touches(s.edges[k], u) then EdgeAt(s.edges[k], x) else 0)
  }

  function OtherEdges(s: State, x: Assignment, u: nat): (terms: seq<int>)
    ensures |terms| == |s.edges|
  {
    seq(|s.edges|, k requires 0 <= k < |s.edges| =>
      if Touches(s.edges[k], u) then 0 else EdgeAt(s.edges[k], x))
  }

  /** What node `u` pays: its own entry and those of its edges. */
  function LocalTerms(s: State, x: Assignment, u: nat): seq<int>
    requires u < |s.nodes|
  {
    [UnaryAt(s.nodes[u], At(x, u))] + LocalEdges(s, x, u)
  }

  /** The score the code computes for the value `x` gives to `u`. */
  function Score(s: State, x: Assignment, u: nat): int
    requires u < |s.nodes|
  {
    Fold(LocalTerms(s, x, u))
  }

  // ---------------------------------------------------- a single integer measure

  /** A term's weight: a forbidden choice outweighs every sum of finite ones. */
  function Weight(c: int): int { if c == INF then 2 * INF else c }

  function WeightSum(terms: seq<int>): int {
    if |terms| == 0 then 0
    else WeightSum(terms[..|terms| - 1]) + Weight(terms[|terms| - 1])
  }

  /** The weight of an assignment: forbidden choices first, then the sum of the finite ones. */
  function Measure(s: State, x: Assignment): int {
    WeightSum(NodeTerms(s, x)) + WeightSum(EdgeTerms(s, x))
  }

  lemma {:induction false} WeightExtract(terms: seq<int>, i: nat)
    requires i < |terms|
    ensures WeightSum(terms) == Weight(terms[i]) + WeightSum(terms[i := 0])
  {
    var last := |terms| - 1;
    if i == last {
      assert terms[i := 0][..last] == terms[..last];
    } else {
      WeightExtract(terms[..last], i);
      assert terms[i := 0][..last] == terms[..last][i := 0];
    }
  }

  lemma {:induction false} WeightAppend(left: seq<int>, right: seq<int>)
    ensures WeightSum(left + right) == WeightSum(left) + WeightSum(right)
  {
    if |right| == 0 {
      assert left + right == left;
    } else {
      WeightAppend(left, right[..|right| - 1]);
      assert (left + right)[..|left + right| - 1] == left + right[..|right| - 1];
    }
  }

  /** Every term is in exactly one of the two parts. */
  ghost predicate Partition(all: seq<int>, own: seq<int>, rest: seq<int>) {
    && |all| == |own| == |rest|
    && forall i :: 0 <= i < |all| ==>
         (own[i] == all[i] && rest[i] == 0) || (rest[i] == all[i] && own[i] == 0)
  }

  lemma {:induction false} PartitionSums(all: seq<int>, own: seq<int>, rest: seq<int>)
    requires Partition(all, own, rest)
    ensures WeightSum(all) == WeightSum(own) + WeightSum(rest)
    ensures ExtSum(all) == Plus(ExtSum(own), ExtSum(rest))
  {
    if |all| > 0 {
      var last := |all| - 1;
      PartitionSums(all[..last], own[..last], rest[..last]);
      PlusAssociative(ExtSum(own[..last]), ExtSum(rest[..last]), ToExt(all[last]));
      PlusAssociative(ExtSum(own[..last]), ToExt(all[last]), ExtSum(rest[..last]));
    }
  }

  /** A finite saturating sum is the weight; a forbidden one weighs more than INF. */
  lemma {:induction false} FoldWeight(terms: seq<int>, budgets: seq<nat>)
    requires |terms| == |budgets| && Total(budgets) < INF
    requires forall i :: 0 <= i < |terms| ==> Bounded(terms[i], budgets[i])
    ensures Fold(terms) < INF ==> WeightSum(terms) == Fold(terms)
    ensures Fold(terms) >= INF ==> WeightSum(terms) >= 2 * INF - Total(budgets)
    ensures WeightSum(terms) + Total(budgets) >= 0
  {
    if |terms| > 0 {
      var last := |terms| - 1;
      FoldWeight(terms[..last], budgets[..last]);
      FoldExact(terms[..last], budgets[..last]);
    }
  }

  // ---------------------------------------------------------- local and global

  lemma LocalPartition(s: State, x: Assignment, u: nat)
    ensures Partition(EdgeTerms(s, x), LocalEdges(s, x, u), OtherEdges(s, x, u))
  {
  }

  /** Nothing outside node `u` and its edges depends on the value of `u`. */
  lemma OtherUnmoved(s: State, x: Assignment, u: nat, v: nat)
    requires |x| == |s.nodes| && u < |x|
    ensures NodeTerms(s, x[u := v])[u := 0] == NodeTerms(s, x)[u := 0]
    ensures OtherEdges(s, x[u := v], u) == OtherEdges(s, x, u)
  {
    assert OtherEdges(s, x[u := v], u) == OtherEdges(s, x, u);
  }

  function Rest(s: State, x: Assignment, u: nat): seq<int>
    requires u < |s.nodes|
  {
    NodeTerms(s, x)[u := 0] + OtherEdges(s, x, u)
  }

  lemma MeasureSplit(s: State, x: Assignment, u: nat)
    requires u < |s.nodes|
    ensures Measure(s, x) == WeightSum(LocalTerms(s, x, u)) + WeightSum(Rest(s, x, u))
  {
    WeightExtract(NodeTerms(s, x), u);
    LocalPartition(s, x, u);
    PartitionSums(EdgeTerms(s, x), LocalEdges(s, x, u), OtherEdges(s, x, u));
    WeightAppend([UnaryAt(s.nodes[u], At(x, u))], LocalEdges(s, x, u));
    WeightOne(UnaryAt(s.nodes[u], At(x, u)));
    WeightAppend(NodeTerms(s, x)[u := 0], OtherEdges(s, x, u));
  }

  lemma WeightOne(c: int)
    ensures WeightSum([c]) == Weight(c) && ExtSum([c]) == ToExt(c)
  {
    assert [c][..0] == [];
    assert ExtSum([]) == Fin(0);
  }

  lemma LocalSum(s: State, x: Assignment, u: nat)
    requires u < |s.nodes|
    ensures ExtSum(LocalTerms(s, x, u))
            == Plus(ToExt(NodeTerms(s, x)[u]), ExtSum(LocalEdges(s, x, u)))
  {
    WeightOne(UnaryAt(s.nodes[u], At(x, u)));
    ExtSumAppend([UnaryAt(s.nodes[u], At(x, u))], LocalEdges(s, x, u));
  }

  lemma SplitRegroup(offset: Ext, u: Ext, nodes: Ext, own: Ext, rest: Ext)
    ensures Plus(offset, Plus(Plus(u, nodes), Plus(own, rest)))
            == Plus(Plus(u, own), Plus(offset, Plus(nodes, rest)))
  {
  }

  lemma ObjectiveSplit(s: State, x: Assignment, u: nat)
    requires u < |s.nodes|
    ensures Objective(s, x)
            == Plus(ExtSum(LocalTerms(s, x, u)), Plus(ToExt(s.offset), ExtSum(Rest(s, x, u))))
  {
    ExtSumExtract(NodeTerms(s, x), u);
    LocalPartition(s, x, u);
    PartitionSums(EdgeTerms(s, x), LocalEdges(s, x, u), OtherEdges(s, x, u));
    LocalSum(s, x, u);
    ExtSumAppend(NodeTerms(s, x)[u := 0], OtherEdges(s, x, u));
    SplitRegroup(ToExt(s.offset), ToExt(NodeTerms(s, x)[u]), ExtSum(NodeTerms(s, x)[u := 0]),
                 ExtSum(LocalEdges(s, x, u)), ExtSum(OtherEdges(s, x, u)));
  }

  /** The budgets of a node's own terms. */
  function LocalBudget(w: Budget, u: nat): seq<nat>
    requires u < |w.node|
  {
    [w.node[u]] + w.edge
  }

  lemma LocalFits(s: State, w: Budget, x: Assignment, u: nat)
    requires GraphOk(s) && Fits(s, w) && Valid(s, x) && u < |s.nodes|
    ensures Total(LocalBudget(w, u)) < INF
    ensures forall i :: 0 <= i < 1 + |s.edges| ==>
              Bounded(LocalTerms(s, x, u)[i], LocalBudget(w, u)[i])
  {
    TermsFit(s, w, x);
    TotalMember(w.node, u);
    TotalAppend([w.node[u]], w.edge);
    assert Total([w.node[u]]) == w.node[u] by {
      assert [w.node[u]][..0] == [];
      assert Total([]) == 0;
    }
    assert UnaryFits(s.nodes[u], w.node[u]);
    assert NodeTerms(s, x)[u] == UnaryAt(s.nodes[u], At(x, u));
    forall k | 0 <= k < |s.edges| ensures Bounded(LocalEdges(s, x, u)[k], w.edge[k]) {
      assert Bounded(EdgeTerms(s, x)[k], w.edge[k]);
    }
  }

  /** Scores are exact: no saturation, no clamping. */
  lemma ScoreExact(s: State, x: Assignment, u: nat)
    requires Good(s) && Valid(s, x) && u < |s.nodes|
    ensures ToExt(Score(s, x, u)) == ExtSum(LocalTerms(s, x, u)) && Score(s, x, u) <= INF
  {
    var w :| Fits(s, w);
    LocalFits(s, w, x, u);
    FoldExact(LocalTerms(s, x, u), LocalBudget(w, u));
  }

  /** Comparing local scores compares whole objectives. */
  lemma ScoreCompares(s: State, x: Assignment, u: nat, v: nat)
    requires Good(s) && Valid(s, x) && u < |s.nodes| && v < s.nodes[u].domain
    ensures var y := x[u := v];
            Score(s, y, u) <= Score(s, x, u) ==> Le(Objective(s, y), Objective(s, x))
    ensures var y := x[u := v];
            Score(s, x, u) <= Score(s, y, u) ==> Le(Objective(s, x), Objective(s, y))
  {
    var y := x[u := v];
    ScoreExact(s, x, u);
    ScoreExact(s, y, u);
    ObjectiveSplit(s, x, u);
    ObjectiveSplit(s, y, u);
    OtherUnmoved(s, x, u, v);
    LeftMonotone(ToExt(Score(s, x, u)), ToExt(Score(s, y, u)),
                 Plus(ToExt(s.offset), ExtSum(Rest(s, x, u))));
  }

  /** What node `u` pays under an assignment: its own entry and those of its edges. */
  function LocalCost(s: State, x: Assignment, u: nat): Ext
    requires u < |s.nodes|
  {
    ExtSum(LocalTerms(s, x, u))
  }

  /** The objective is what a node pays plus what does not depend on its value. */
  lemma LocalShare(s: State, x: Assignment, u: nat, v: nat)
    requires Valid(s, x) && u < |s.nodes|
    ensures Objective(s, x) == Plus(LocalCost(s, x, u), Plus(ToExt(s.offset), ExtSum(Rest(s, x, u))))
    ensures Rest(s, With(x, u, v), u) == Rest(s, x, u)
  {
    ObjectiveSplit(s, x, u);
    OtherUnmoved(s, x, u, v);
  }

  /** `v` is the first value of `u` at which it pays least. */
  ghost predicate PaysLeast(s: State, x: Assignment, u: nat, v: nat)
    requires u < |s.nodes|
  {
    && v < s.nodes[u].domain
    && forall w {:trigger With(x, u, w)} :: 0 <= w < s.nodes[u].domain ==>
         && Le(LocalCost(s, With(x, u, v), u), LocalCost(s, With(x, u, w), u))
         && (w < v ==> !Le(LocalCost(s, With(x, u, w), u), LocalCost(s, With(x, u, v), u)))
  }

  /** Looking at node `u`: it moves to that value if it then pays strictly less, or stays. */
  ghost predicate Looked(s: State, x: Assignment, u: nat, y: Assignment)
    requires u < |s.nodes|
  {
    exists v {:trigger PaysLeast(s, x, u, v)} ::
      && PaysLeast(s, x, u, v)
      && y == if Le(LocalCost(s, x, u), LocalCost(s, With(x, u, v), u)) then x else With(x, u, v)
  }

  type Look = (Assignment, nat, Assignment) -> bool

  ghost predicate Seen(x: Assignment, u: nat, y: Assignment) { true }

  ghost predicate IsLook(look: Look, s: State) {
    forall x, u: nat, y {:trigger Seen(x, u, y)} :: Seen(x, u, y) && u < |s.nodes| ==>
        look(x, u, y) == Looked(s, x, u, y)
  }

  ghost function LookOf(s: State): Look {
    (x: Assignment, u: nat, y: Assignment) => u < |s.nodes| && Looked(s, x, u, y)
  }

  /** Looking at the first `u` nodes in order. */
  ghost predicate SweepsTo(look: Look, x: Assignment, u: nat, y: Assignment) {
    if u == 0 then y == x
    else exists z {:trigger SweepsTo(look, x, u - 1, z)} :: SweepsTo(look, x, u - 1, z) && look(z, u - 1, y)
  }

  /** So many sweeps over `n` nodes. */
  ghost predicate DescendsTo(look: Look, n: nat, x: Assignment, sweeps: nat, y: Assignment) {
    if sweeps == 0 then y == x
    else
      exists z {:trigger DescendsTo(look, n, x, sweeps - 1, z)} ::
        DescendsTo(look, n, x, sweeps - 1, z) && SweepsTo(look, z, n, y)
  }

  lemma SweepsNext(look: Look, x: Assignment, u: nat, z: Assignment, y: Assignment)
    requires SweepsTo(look, x, u, z) && look(z, u, y)
    ensures SweepsTo(look, x, u + 1, y)
  {
  }

  lemma DescendsNext(look: Look, n: nat, x: Assignment, sweeps: nat, z: Assignment, y: Assignment)
    requires DescendsTo(look, n, x, sweeps, z) && SweepsTo(look, z, n, y)
    ensures DescendsTo(look, n, x, sweeps + 1, y)
  {
  }

  ghost predicate EndsAt(look: Look, n: nat, x: Assignment, y: Assignment) {
    SweepsTo(look, y, n, y) && exists sweeps: nat :: DescendsTo(look, n, x, sweeps, y)
  }

  /** Descent from `x` ends at `y`, where another sweep changes nothing. */
  ghost predicate Descends(s: State, x: Assignment, y: Assignment) { EndsAt(LookOf(s), |s.nodes|, x, y) }

  /** The first least score belongs to that value. */
  lemma FirstLeastScore(s: State, x: Assignment, u: nat, scores: seq<int>, m: MinArg)
    requires Good(s) && Valid(s, x) && u < |s.nodes| && |scores| == s.nodes[u].domain && IsFirstMin(scores, m)
    requires forall v: nat :: v < |scores| ==> scores[v] == Score(s, With(x, u, v), u)
    ensures PaysLeast(s, x, u, m.index)
    ensures m.value < scores[x[u]] <==> !Le(LocalCost(s, x, u), LocalCost(s, With(x, u, m.index), u))
  {
    ScoreExact(s, With(x, u, m.index), u);
    forall w {:trigger With(x, u, w)} | 0 <= w < s.nodes[u].domain
      ensures Le(LocalCost(s, With(x, u, m.index), u), LocalCost(s, With(x, u, w), u))
      ensures m.value < scores[w] <==> !Le(LocalCost(s, With(x, u, w), u), LocalCost(s, With(x, u, m.index), u))
    {
      ScoreExact(s, With(x, u, w), u);
      assert m.value <= scores[w];
    }
    assert With(x, u, x[u]) == x;
  }

  lemma LeftMonotone(a: Ext, b: Ext, rest: Ext)
    ensures Le(a, b) ==> Le(Plus(a, rest), Plus(b, rest))
    ensures Le(b, a) ==> Le(Plus(b, rest), Plus(a, rest))
  {
  }

  /** A strictly better local score strictly lowers the measure, even among forbidden
      assignments whose objective stays infinite. */
  lemma MoveLowersMeasure(s: State, x: Assignment, u: nat, v: nat)
    requires Good(s) && Valid(s, x) && u < |s.nodes| && v < s.nodes[u].domain
    requires Score(s, x[u := v], u) < Score(s, x, u)
    ensures Measure(s, x[u := v]) < Measure(s, x)
  {
    var y := x[u := v];
    var w :| Fits(s, w);
    ScoreExact(s, x, u);
    MeasureSplit(s, x, u);
    MeasureSplit(s, y, u);
    OtherUnmoved(s, x, u, v);
    LocalFits(s, w, x, u);
    LocalFits(s, w, y, u);
    FoldWeight(LocalTerms(s, x, u), LocalBudget(w, u));
    FoldWeight(LocalTerms(s, y, u), LocalBudget(w, u));
  }

  /** The measure is bounded below, so descent must end. */
  lemma MeasureBounded(s: State, x: Assignment)
    requires Good(s) && Valid(s, x)
    ensures Measure(s, x) > -INF
  {
    var w :| Fits(s, w);
    TermsFit(s, w, x);
    TotalAppend(w.node, w.edge);
    FoldWeight(NodeTerms(s, x) + EdgeTerms(s, x), w.node + w.edge);
    WeightAppend(NodeTerms(s, x), EdgeTerms(s, x));
  }

  /** `x` with the value of node `u` changed to `v`. */
  function With(x: Assignment, u: nat, v: nat): Assignment { if u < |x| then x[u := v] else x }

  /** No single node can do better by itself. */
  ghost predicate LocallyOptimal(s: State, x: Assignment) {
    forall u, v :: 0 <= u < |s.nodes| && 0 <= v < s.nodes[u].domain ==>
      Le(Objective(s, x), Objective(s, With(x, u, v)))
  }

  /** No value of node `u` has a better local score than the current one. */
  ghost predicate NodeSettled(s: State, x: Assignment, u: nat)
    requires u < |s.nodes| == |x|
  {
    forall v :: 0 <= v < s.nodes[u].domain ==> Score(s, x, u) <= Score(s, With(x, u, v), u)
  }

  /** A sweep without a move ends in a local optimum. */
  lemma SettledIsOptimal(s: State, x: Assignment)
    requires Good(s) && Valid(s, x)
    requires forall u :: 0 <= u < |s.nodes| ==> NodeSettled(s, x, u)
    ensures LocallyOptimal(s, x)
  {
    forall u, v | 0 <= u < |s.nodes| && 0 <= v < s.nodes[u].domain
      ensures Le(Objective(s, x), Objective(s, With(x, u, v)))
    {
      assert NodeSettled(s, x, u);
      ScoreCompares(s, x, u, v);
    }
  }
}
