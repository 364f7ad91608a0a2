/** When the public evaluation is the objective (software/pbqp/pbqp.cpp: pbqp_evaluate): eliminated
    nodes keep their unary vectors, and the evaluation still adds the selected entries. */
module StaleCosts {
  import opened Costs
  import opened Graphs
  import opened Reductions
  import opened Evaluation

  /** What `Evaluation.Evaluate` returns. */
  function Evaluated(s: State, x: Assignment): int { Fold(StoredTerms(s, x) + EdgeTerms(s, x)) }

  /** The selected entries of eliminated nodes; zero at active nodes. */
  function StaleTerms(s: State, x: Assignment): (terms: seq<int>)
    ensures |terms| == |s.nodes|
  {
    seq(|s.nodes|, i requires 0 <= i < |s.nodes| => if s.nodes[i].active then 0 else StoredTerms(s, x)[i])
  }

  /** Their exact sum. */
  function Stale(s: State, x: Assignment): Ext { ExtSum(StaleTerms(s, x)) }

  lemma {:induction false} SplitSum(stored: seq<int>, live: seq<int>, stale: seq<int>)
    requires |stored| == |live| == |stale|
    requires forall i {:trigger stored[i]} :: 0 <= i < |stored| ==>
               (live[i] == stored[i] && stale[i] == 0) || (live[i] == 0 && stale[i] == stored[i])
    ensures ExtSum(stored) == Plus(ExtSum(live), ExtSum(stale))
  {
    if |stored| > 0 {
      var last := |stored| - 1;
      SplitSum(stored[..last], live[..last], stale[..last]);
      SplitTerm(ExtSum(live[..last]), ExtSum(stale[..last]), stored[last], live[last], stale[last]);
    }
  }

  lemma SplitTerm(live: Ext, stale: Ext, stored: int, l: int, t: int)
    requires (l == stored && t == 0) || (l == 0 && t == stored)
    ensures Plus(Plus(live, stale), ToExt(stored)) == Plus(Plus(live, ToExt(l)), Plus(stale, ToExt(t)))
  {
  }

  lemma StoredSplits(s: State, x: Assignment)
    ensures ExtSum(StoredTerms(s, x)) == Plus(ExtSum(NodeTerms(s, x)), Stale(s, x))
  {
    SplitSum(StoredTerms(s, x), NodeTerms(s, x), StaleTerms(s, x));
  }

  // ------------------------------------------------------------------- in range

  ghost predicate StoredFits(n: Node, budget: int) {
    forall v :: 0 <= v < |n.unary| ==> Bounded(n.unary[v], budget)
  }

  /** The budgets also explain the unary vectors that eliminated nodes keep. */
  ghost predicate FitsStored(s: State, w: Budget) {
    Fits(s, w) && forall i {:trigger StoredFits(s.nodes[i], w.node[i])} :: 0 <= i < |s.nodes| ==>
      StoredFits(s.nodes[i], w.node[i])
  }

  ghost predicate SafeStored(s: State) { exists w :: FitsStored(s, w) }

  lemma StoredFold(s: State, w: Budget, x: Assignment)
    requires GraphOk(s) && FitsStored(s, w) && Valid(s, x)
    ensures ToExt(Evaluated(s, x)) == Plus(ExtSum(StoredTerms(s, x)), ExtSum(EdgeTerms(s, x)))
    ensures Evaluated(s, x) <= INF
  {
    TermsFit(s, w, x);
    TotalAppend(w.node, w.edge);
    forall i | 0 <= i < |s.nodes| ensures Bounded(StoredTerms(s, x)[i], w.node[i]) {
      assert StoredFits(s.nodes[i], w.node[i]);
    }
    FoldExact(StoredTerms(s, x) + EdgeTerms(s, x), w.node + w.edge);
    ExtSumAppend(StoredTerms(s, x), EdgeTerms(s, x));
  }

  lemma LiveFold(s: State, w: Budget, x: Assignment)
    requires GraphOk(s) && Fits(s, w) && Valid(s, x)
    ensures ToExt(EvaluateCore(s, x)) == Plus(ExtSum(NodeTerms(s, x)), ExtSum(EdgeTerms(s, x)))
    ensures EvaluateCore(s, x) <= INF
  {
    TermsFit(s, w, x);
    TotalAppend(w.node, w.edge);
    FoldExact(NodeTerms(s, x) + EdgeTerms(s, x), w.node + w.edge);
    ExtSumAppend(NodeTerms(s, x), EdgeTerms(s, x));
  }

  lemma EvaluatedExact(s: State, x: Assignment)
    requires GraphOk(s) && SafeStored(s) && Valid(s, x)
    ensures ToExt(Evaluated(s, x)) == Plus(Plus(ExtSum(NodeTerms(s, x)), Stale(s, x)), ExtSum(EdgeTerms(s, x)))
    ensures ToExt(EvaluateCore(s, x)) == Plus(ExtSum(NodeTerms(s, x)), ExtSum(EdgeTerms(s, x)))
    ensures Evaluated(s, x) <= INF && EvaluateCore(s, x) <= INF
  {
    var w :| FitsStored(s, w);
    StoredFold(s, w, x);
    LiveFold(s, w, x);
    StoredSplits(s, x);
  }

  /** While all stored costs are in range, the evaluation is the active part plus the stale terms:
      it is the cost of the active part exactly when that is infinite or the stale terms add up to
      nothing, and the objective exactly when it is infinite or they add up to the offset. */
  lemma EvaluatedMeans(s: State, x: Assignment)
    requires GraphOk(s) && SafeStored(s) && Valid(s, x)
    ensures ToExt(Evaluated(s, x)) == Plus(Stale(s, x), ToExt(EvaluateCore(s, x)))
    ensures Evaluated(s, x) == EvaluateCore(s, x) <==> EvaluateCore(s, x) == INF || Stale(s, x) == Fin(0)
    ensures ToExt(Evaluated(s, x)) == Objective(s, x) <==>
              EvaluateCore(s, x) == INF || Stale(s, x) == ToExt(s.offset)
  {
    EvaluatedExact(s, x);
    PlusAssociative(ToExt(s.offset), ExtSum(NodeTerms(s, x)), ExtSum(EdgeTerms(s, x)));
    Compared(Evaluated(s, x), EvaluateCore(s, x), s.offset, ExtSum(NodeTerms(s, x)), Stale(s, x),
             ExtSum(EdgeTerms(s, x)));
  }

  lemma Compared(evaluated: int, core: int, offset: int, nodes: Ext, stale: Ext, edges: Ext)
    requires evaluated <= INF && core <= INF
    requires ToExt(evaluated) == Plus(Plus(nodes, stale), edges) && ToExt(core) == Plus(nodes, edges)
    ensures ToExt(evaluated) == Plus(stale, ToExt(core))
    ensures evaluated == core <==> core == INF || stale == Fin(0)
    ensures ToExt(evaluated) == Plus(ToExt(offset), Plus(nodes, edges)) <==> core == INF || stale == ToExt(offset)
  {
  }

  // ----------------------------------------------------------------- any stored costs

  /** All operands of the evaluation are 32-bit costs. */
  ghost predicate Costed(terms: seq<int>) {
    forall i {:trigger terms[i]} :: 0 <= i < |terms| ==> INT32_MIN <= terms[i] <= INF
  }

  /** Raising terms raises the saturating sum of terms in range, strictly unless that sum is
      infinite. */
  lemma {:induction false} FoldRaised(terms: seq<int>, budgets: seq<nat>, more: seq<int>)
    requires |terms| == |budgets| == |more| && Total(budgets) < INF && Costed(more)
    requires forall i {:trigger terms[i]} :: 0 <= i < |terms| ==> Bounded(terms[i], budgets[i]) && terms[i] <= more[i]
    ensures Fold(terms) <= Fold(more) <= INF
    ensures Fold(terms) < INF && more != terms ==> Fold(terms) < Fold(more)
  {
    if |terms| > 0 {
      var last := |terms| - 1;
      var t, b, m := terms[..last], budgets[..last], more[..last];
      TotalPrefix(budgets, last);
      assert Costed(m) by {
        assert forall i {:trigger m[i]} :: 0 <= i < last ==> m[i] == more[i];
      }
      FoldRaised(t, b, m);
      FoldExact(t, b);
      FoldExact(terms, budgets);
      assert terms[last] <= more[last];
      assert terms == t + [terms[last]] && more == m + [more[last]];
      RaisedStep(Fold(t), terms[last], Fold(m), more[last], Total(b), budgets[last]);
    }
  }

  lemma RaisedStep(a: int, t: int, b: int, m: int, budgetA: nat, budgetT: nat)
    requires Bounded(a, budgetA) && Bounded(t, budgetT) && budgetA + budgetT < INF
    requires a <= b <= INF && t <= m <= INF
    ensures Add(a, t) <= Add(b, m) <= INF
    ensures Add(a, t) < INF && (a < b || t < m) ==> Add(a, t) < Add(b, m)
  {
  }

  lemma {:induction false} FoldLowered(terms: seq<int>, budgets: seq<nat>, less: seq<int>)
    requires |terms| == |budgets| == |less| && Total(budgets) < INF && Costed(less)
    requires forall i {:trigger terms[i]} :: 0 <= i < |terms| ==>
               Bounded(terms[i], budgets[i]) && less[i] <= terms[i] && (terms[i] == INF ==> less[i] == INF)
    ensures INT32_MIN <= Fold(less) <= Fold(terms) && (Fold(terms) == INF ==> Fold(less) == INF)
    ensures Fold(terms) < INF && less != terms ==> Fold(less) < Fold(terms)
  {
    if |terms| > 0 {
      var last := |terms| - 1;
      var t, b, l := terms[..last], budgets[..last], less[..last];
      TotalPrefix(budgets, last);
      assert Costed(l) by {
        assert forall i {:trigger l[i]} :: 0 <= i < last ==> l[i] == less[i];
      }
      FoldLowered(t, b, l);
      FoldExact(t, b);
      assert less[last] <= terms[last];
      assert terms == t + [terms[last]] && less == l + [less[last]];
      LoweredStep(Fold(t), terms[last], Fold(l), less[last], Total(b), budgets[last]);
    }
  }

  lemma LoweredStep(a: int, t: int, b: int, m: int, budgetA: nat, budgetT: nat)
    requires Bounded(a, budgetA) && Bounded(t, budgetT) && budgetA + budgetT < INF
    requires INT32_MIN <= b <= a && INT32_MIN <= m <= t && (a == INF ==> b == INF) && (t == INF ==> m == INF)
    ensures INT32_MIN <= Add(b, m) <= Add(a, t) && (Add(a, t) == INF ==> Add(b, m) == INF)
    ensures Add(a, t) < INF && (b < a || m < t) ==> Add(b, m) < Add(a, t)
  {
  }

  /** All stale terms point the same way. */
  ghost predicate OneSided(s: State, x: Assignment) {
    var stale := StaleTerms(s, x);
    || (forall i {:trigger stale[i]} :: 0 <= i < |stale| ==> stale[i] >= 0)
    || (forall i {:trigger stale[i]} :: 0 <= i < |stale| ==> stale[i] <= 0)
  }

  /** Whatever the stored costs of eliminated nodes are: as long as the selected ones do not cancel,
      the evaluation is the cost of the active part exactly when that is infinite or each of them is
      zero. */
  lemma OneSidedMeans(s: State, x: Assignment)
    requires GraphOk(s) && Safe(s) && Valid(s, x) && OneSided(s, x) && Costed(StoredTerms(s, x))
    ensures Evaluated(s, x) == EvaluateCore(s, x) <==>
              EvaluateCore(s, x) == INF || forall i {:trigger StaleTerms(s, x)[i]} :: 0 <= i < |s.nodes| ==>
                StaleTerms(s, x)[i] == 0
  {
    var w :| Fits(s, w);
    var stale := StaleTerms(s, x);
    StoredIs(s, x);
    if forall i {:trigger stale[i]} :: 0 <= i < |stale| ==> stale[i] == 0 {
      NoneStale(s, x);
    } else {
      var i :| 0 <= i < |stale| && stale[i] != 0;
      assert StoredTerms(s, x)[i] != NodeTerms(s, x)[i];
      if forall i {:trigger stale[i]} :: 0 <= i < |stale| ==> stale[i] >= 0 {
        StaleRaises(s, w, x, i);
      } else {
        StaleLowers(s, w, x, i);
      }
    }
  }

  /** A stored term is a live one or a stale one. */
  lemma StoredIs(s: State, x: Assignment)
    ensures forall i {:trigger StaleTerms(s, x)[i]} {:trigger StoredTerms(s, x)[i]} {:trigger NodeTerms(s, x)[i]} ::
              0 <= i < |s.nodes| ==>
                && StoredTerms(s, x)[i] == NodeTerms(s, x)[i] + StaleTerms(s, x)[i]
                && (NodeTerms(s, x)[i] == 0 || StaleTerms(s, x)[i] == 0)
  {
  }

  lemma NoneStale(s: State, x: Assignment)
    requires forall i {:trigger StaleTerms(s, x)[i]} :: 0 <= i < |s.nodes| ==> StaleTerms(s, x)[i] == 0
    ensures Evaluated(s, x) == EvaluateCore(s, x)
  {
    var stored, live := StoredTerms(s, x), NodeTerms(s, x);
    forall i | 0 <= i < |s.nodes| ensures stored[i] == live[i] {
      assert StaleTerms(s, x)[i] == 0;
    }
    assert stored == live;
  }

  lemma StaleRaises(s: State, w: Budget, x: Assignment, i: nat)
    requires GraphOk(s) && Fits(s, w) && Valid(s, x) && Costed(StoredTerms(s, x))
    requires forall i {:trigger StaleTerms(s, x)[i]} :: 0 <= i < |s.nodes| ==> StaleTerms(s, x)[i] >= 0
    requires i < |s.nodes| && StoredTerms(s, x)[i] != NodeTerms(s, x)[i]
    ensures Evaluated(s, x) == EvaluateCore(s, x) <==> EvaluateCore(s, x) == INF
  {
    TermsFit(s, w, x);
    TotalAppend(w.node, w.edge);
    CostedEdges(s, w, x);
    StoredIs(s, x);
    var terms, more, budgets := NodeTerms(s, x) + EdgeTerms(s, x), StoredTerms(s, x) + EdgeTerms(s, x), w.node + w.edge;
    forall k {:trigger terms[k]} | 0 <= k < |terms| ensures Bounded(terms[k], budgets[k]) && terms[k] <= more[k] {
      if k < |s.nodes| {
        assert StaleTerms(s, x)[k] >= 0;
      }
    }
    assert more[i] != terms[i];
    FoldRaised(terms, budgets, more);
  }

  lemma StaleLowers(s: State, w: Budget, x: Assignment, i: nat)
    requires GraphOk(s) && Fits(s, w) && Valid(s, x) && Costed(StoredTerms(s, x))
    requires forall i {:trigger StaleTerms(s, x)[i]} :: 0 <= i < |s.nodes| ==> StaleTerms(s, x)[i] <= 0
    requires i < |s.nodes| && StoredTerms(s, x)[i] != NodeTerms(s, x)[i]
    ensures Evaluated(s, x) == EvaluateCore(s, x) <==> EvaluateCore(s, x) == INF
  {
    TermsFit(s, w, x);
    TotalAppend(w.node, w.edge);
    CostedEdges(s, w, x);
    StoredIs(s, x);
    var terms, less, budgets := NodeTerms(s, x) + EdgeTerms(s, x), StoredTerms(s, x) + EdgeTerms(s, x), w.node + w.edge;
    forall k {:trigger terms[k]} | 0 <= k < |terms|
      ensures Bounded(terms[k], budgets[k]) && less[k] <= terms[k] && (terms[k] == INF ==> less[k] == INF)
    {
      if k < |s.nodes| {
        assert StaleTerms(s, x)[k] <= 0;
      }
    }
    assert less[i] != terms[i];
    FoldLowered(terms, budgets, less);
    FoldExact(terms, budgets);
  }

  lemma CostedEdges(s: State, w: Budget, x: Assignment)
    requires GraphOk(s) && Fits(s, w) && Valid(s, x) && Costed(StoredTerms(s, x))
    ensures Costed(StoredTerms(s, x) + EdgeTerms(s, x))
  {
    TermsFit(s, w, x);
    forall k | 0 <= k < |s.edges| ensures INT32_MIN <= EdgeTerms(s, x)[k] <= INF {
      TotalMember(w.edge, k);
    }
  }

  // ------------------------------------------------------------- the loop in closed form

  /** The sum of finite terms without any clamping. */
  function Exact(terms: seq<int>): int {
    if |terms| == 0 then 0 else Exact(terms[..|terms| - 1]) + terms[|terms| - 1]
  }

  /** The least of the sums on the way. */
  function Lowest(terms: seq<int>): int {
    if |terms| == 0 then 0
    else
      var before := Lowest(terms[..|terms| - 1]);
      if Exact(terms) < before then Exact(terms) else before
  }

  /** How far clamping at the least cost lifts the running sum. */
  function Lift(terms: seq<int>): nat { if Lowest(terms) < INT32_MIN then INT32_MIN - Lowest(terms) else 0 }

  /** Some term is infinite, or the lifted sum reaches infinity on the way. */
  predicate Saturates(terms: seq<int>) {
    |terms| > 0
    && (Saturates(terms[..|terms| - 1]) || terms[|terms| - 1] == INF || Exact(terms) + Lift(terms) >= INF)
  }

  /** The saturating sum of any 32-bit costs: infinite if it saturates, and otherwise the exact sum
      plus the lift. */
  lemma {:induction false} FoldClosed(terms: seq<int>)
    requires Costed(terms)
    ensures Fold(terms) == if Saturates(terms) then INF else Exact(terms) + Lift(terms)
    ensures !Saturates(terms) ==> INT32_MIN <= Exact(terms) + Lift(terms) < INF
  {
    if |terms| > 0 {
      var last := |terms| - 1;
      assert Costed(terms[..last]) by {
        assert forall i {:trigger terms[..last][i]} :: 0 <= i < last ==> terms[..last][i] == terms[i];
      }
      FoldClosed(terms[..last]);
      assert terms[last] <= INF;
    }
  }

  lemma {:induction false} ExactIs(terms: seq<int>)
    ensures ExtSum(terms).Fin? ==> ExtSum(terms).v == Exact(terms)
  {
    if |terms| > 0 {
      ExactIs(terms[..|terms| - 1]);
    }
  }

  lemma {:induction false} InfiniteTerm(terms: seq<int>) returns (i: nat)
    requires ExtSum(terms).Inf?
    ensures i < |terms| && terms[i] == INF
  {
    i := |terms| - 1;
    if terms[i] != INF {
      i := InfiniteTerm(terms[..i]);
    }
  }

  lemma {:induction false} SaturatesAt(terms: seq<int>, i: nat)
    requires i < |terms| && terms[i] == INF
    ensures Saturates(terms)
  {
    if i < |terms| - 1 {
      SaturatesAt(terms[..|terms| - 1], i);
    }
  }

  lemma {:induction false} ExactAppend(left: seq<int>, right: seq<int>)
    ensures Exact(left + right) == Exact(left) + Exact(right)
  {
    if |right| == 0 {
      assert left + right == left;
    } else {
      ExactAppend(left, right[..|right| - 1]);
      assert (left + right)[..|left + right| - 1] == left + right[..|right| - 1];
    }
  }

  lemma {:induction false} ExactSplit(stored: seq<int>, live: seq<int>, stale: seq<int>)
    requires |stored| == |live| == |stale|
    requires forall i {:trigger stored[i]} :: 0 <= i < |stored| ==> stored[i] == live[i] + stale[i]
    ensures Exact(stored) == Exact(live) + Exact(stale)
  {
    if |stored| > 0 {
      var last := |stored| - 1;
      ExactSplit(stored[..last], live[..last], stale[..last]);
      assert stored[last] == live[last] + stale[last];
    }
  }

  lemma FrontSaturates(live: seq<int>, all: seq<int>)
    requires ExtSum(live).Inf? && |live| <= |all|
    requires forall i {:trigger live[i]} :: 0 <= i < |live| && live[i] == INF ==> all[i] == INF
    ensures Saturates(all)
  {
    var i := InfiniteTerm(live);
    SaturatesAt(all, i);
  }

  lemma BackSaturates(edges: seq<int>, all: seq<int>, from: nat)
    requires ExtSum(edges).Inf? && from + |edges| == |all|
    requires forall k {:trigger edges[k]} :: 0 <= k < |edges| ==> all[from + k] == edges[k]
    ensures Saturates(all)
  {
    var k := InfiniteTerm(edges);
    SaturatesAt(all, from + k);
  }

  /** An infinite active part makes the evaluation infinite. */
  lemma CoreSaturates(s: State, x: Assignment)
    requires Plus(ExtSum(NodeTerms(s, x)), ExtSum(EdgeTerms(s, x))).Inf?
    ensures Saturates(StoredTerms(s, x) + EdgeTerms(s, x))
  {
    StoredIs(s, x);
    if ExtSum(NodeTerms(s, x)).Inf? {
      FrontSaturates(NodeTerms(s, x), StoredTerms(s, x) + EdgeTerms(s, x));
    } else {
      BackSaturates(EdgeTerms(s, x), StoredTerms(s, x) + EdgeTerms(s, x), |s.nodes|);
    }
  }

  /** Evaluation and active part as sums. */
  lemma EvaluatedSums(s: State, x: Assignment)
    requires GraphOk(s) && Safe(s) && Valid(s, x) && Costed(StoredTerms(s, x))
    ensures var all := StoredTerms(s, x) + EdgeTerms(s, x);
            && Evaluated(s, x) == (if Saturates(all) then INF else Exact(all) + Lift(all)) <= INF
            && (!Saturates(all) ==> Evaluated(s, x) < INF)
            && EvaluateCore(s, x) <= INF && (EvaluateCore(s, x) == INF ==> Saturates(all))
            && (EvaluateCore(s, x) < INF ==> Exact(all) == EvaluateCore(s, x) + Exact(StaleTerms(s, x)))
  {
    var w :| Fits(s, w);
    var stored, live, edges := StoredTerms(s, x), NodeTerms(s, x), EdgeTerms(s, x);
    CostedEdges(s, w, x);
    FoldClosed(stored + edges);
    LiveFold(s, w, x);
    if EvaluateCore(s, x) == INF {
      CoreSaturates(s, x);
    }
    ExactIs(live);
    ExactIs(edges);
    ExactAppend(stored, edges);
    StoredIs(s, x);
    ExactSplit(stored, live, StaleTerms(s, x));
  }

  /** For all 32-bit stored costs, whatever their range and signs: the evaluation is the cost of the
      active part, or the objective, exactly when the active part is infinite, or nothing saturates
      and the stale terms and the lift together make up for the difference. */
  lemma EvaluatedExactly(s: State, x: Assignment)
    requires GraphOk(s) && Safe(s) && Valid(s, x) && Costed(StoredTerms(s, x))
    ensures var all := StoredTerms(s, x) + EdgeTerms(s, x);
            Evaluated(s, x) == EvaluateCore(s, x) <==>
              EvaluateCore(s, x) == INF || (!Saturates(all) && Exact(StaleTerms(s, x)) + Lift(all) == 0)
    ensures var all := StoredTerms(s, x) + EdgeTerms(s, x);
            ToExt(Evaluated(s, x)) == Objective(s, x) <==>
              || EvaluateCore(s, x) == INF
              || (if s.offset == INF then Saturates(all)
                  else !Saturates(all) && Exact(StaleTerms(s, x)) + Lift(all) == s.offset)
  {
    EvaluatedSums(s, x);
    var w :| Fits(s, w);
    LiveFold(s, w, x);
  }

  // ------------------------------------------------------------------- witness

  /** One node with unary costs 1 and 3. */
  function OneNode(): State {
    State(2, [Node(true, 2, [1, 3], Unreduced, 0, 0, [])], [], 0, 0, [])
  }

  /** The same problem after eliminating its node. */
  lemma OneNodeReduced()
    ensures ReduceR0(OneNode(), 0) == State(2, [Node(false, 2, [1, 3], R0, 0, 0, [0])], [], 0, 1, [0])
  {
    assert IsFirstMin([1, 3], MinArg(1, 0));
    FirstMinUnique([1, 3], MinArg(1, 0));
  }

  lemma Singletons(a: int)
    requires -INF < a < INF
    ensures Fold([a]) == a && ExtSum([a]) == Fin(a)
  {
    assert [a][..0] == [];
  }

  lemma OneNodeSafe(s: State)
    requires s == State(2, [Node(false, 2, [1, 3], R0, 0, 0, [0])], [], 0, 1, [0])
    ensures GraphOk(s) && SafeStored(s)
  {
    var w := Budget([3], [], 1);
    assert [3][..0] == [];
    assert Total([3]) == 3 && Total([]) == 0;
    assert EdgeFlags(s.edges) == [];
    assert StoredFits(s.nodes[0], w.node[0]) && UnaryFits(s.nodes[0], w.node[0]);
    assert FitsStored(s, w);
  }

  /** After eliminating the only node, the evaluation of its second value is 3, the cost of the
      empty active part 0, and the objective the offset 1. */
  lemma StaleEvaluation()
    ensures var s := ReduceR0(OneNode(), 0);
            && GraphOk(s) && SafeStored(s) && Valid(s, [1])
            && Evaluated(s, [1]) == 3 && EvaluateCore(s, [1]) == 0 && Objective(s, [1]) == Fin(1)
  {
    OneNodeReduced();
    var s := ReduceR0(OneNode(), 0);
    OneNodeSafe(s);
    Singletons(3);
    Singletons(0);
    assert EdgeTerms(s, [1]) == [];
    assert StoredTerms(s, [1]) == [3] && NodeTerms(s, [1]) == [0];
    assert [3] + [] == [3] && [0] + [] == [0];
    assert ExtSum([]) == Fin(0);
  }

  // --------------------------------------------------- stale terms that cancel by clamping

  lemma Appended(terms: seq<int>, t: int)
    ensures Fold(terms + [t]) == Add(Fold(terms), t) && ExtSum(terms + [t]) == Plus(ExtSum(terms), ToExt(t))
  {
    assert (terms + [t])[..|terms|] == terms;
  }

  /** Two costs that clamp at the least cost and five that lead back to zero. */
  function ClampedCosts(): seq<int> { [INT32_MIN, INT32_MIN, INF - 1, INF - 1, INF - 1, INF - 1, 8] }

  function Eliminated(cost: int): Node { Node(false, 1, [cost], R0, 0, 0, [0]) }

  function ClampedNodes(): State {
    State(1, seq(7, i requires 0 <= i < 7 => Eliminated(ClampedCosts()[i])), [], 0, 0, [0, 1, 2, 3, 4, 5, 6])
  }

  lemma Stepped(terms: seq<int>, t: int, fold: int, sum: int)
    requires Fold(terms) == fold && ExtSum(terms) == Fin(sum) && t != INF
    ensures Fold(terms + [t]) == Add(fold, t) && ExtSum(terms + [t]) == Fin(sum + t)
  {
    Appended(terms, t);
  }

  lemma ClampedHalf() returns (half: seq<int>)
    ensures half == [INT32_MIN, INT32_MIN, INF - 1, INF - 1]
    ensures Fold(half) == INT32_MIN + 2 * (INF - 1) && ExtSum(half) == Fin(2 * INT32_MIN + 2 * (INF - 1))
  {
    half := [];
    Stepped(half, INT32_MIN, 0, 0);
    half := half + [INT32_MIN];
    Stepped(half, INT32_MIN, INT32_MIN, INT32_MIN);
    half := half + [INT32_MIN];
    Stepped(half, INF - 1, INT32_MIN, 2 * INT32_MIN);
    half := half + [INF - 1];
    Stepped(half, INF - 1, INT32_MIN + (INF - 1), 2 * INT32_MIN + (INF - 1));
    half := half + [INF - 1];
  }

  lemma ClampedSums()
    ensures Fold(ClampedCosts()) == 0 && ExtSum(ClampedCosts()) == Fin(INT32_MIN)
  {
    var all := ClampedHalf();
    Stepped(all, INF - 1, INT32_MIN + 2 * (INF - 1), 2 * INT32_MIN + 2 * (INF - 1));
    all := all + [INF - 1];
    Stepped(all, INF - 1, INT32_MIN + 3 * (INF - 1), 2 * INT32_MIN + 3 * (INF - 1));
    all := all + [INF - 1];
    Stepped(all, 8, INT32_MIN + 4 * (INF - 1), 2 * INT32_MIN + 4 * (INF - 1));
    all := all + [8];
    assert all == ClampedCosts();
  }

  lemma {:induction false} FoldZeros(terms: seq<int>)
    requires forall i {:trigger terms[i]} :: 0 <= i < |terms| ==> terms[i] == 0
    ensures Fold(terms) == 0
  {
    if |terms| > 0 {
      FoldZeros(terms[..|terms| - 1]);
    }
  }

  /** For stored costs in general neither range nor sign can be dropped: stale terms far out of range
      and of opposite signs can cancel by clamping, although they do not add up to nothing. No
      building call accepts these costs, so this is about the evaluation loop and not about a problem
      that reductions reach. */
  lemma ClampedCancels()
    ensures var s, x := ClampedNodes(), [0, 0, 0, 0, 0, 0, 0];
            && Safe(s) && Valid(s, x) && Evaluated(s, x) == EvaluateCore(s, x) == 0 && Stale(s, x) == Fin(INT32_MIN)
  {
    var s, x := ClampedNodes(), [0, 0, 0, 0, 0, 0, 0];
    var w := Budget(seq(7, i => 0), [], 0);
    forall i | 0 <= i < 7 ensures UnaryFits(s.nodes[i], w.node[i]) {
    }
    ZeroBudget(7);
    assert Fits(s, w);
    assert StoredTerms(s, x) + EdgeTerms(s, x) == ClampedCosts();
    assert StaleTerms(s, x) == ClampedCosts();
    ClampedSums();
    FoldZeros(NodeTerms(s, x) + EdgeTerms(s, x));
  }

  lemma {:induction false} ZeroBudget(n: nat)
    ensures Total(seq(n, i => 0)) == 0
  {
    if n > 0 {
      ZeroBudget(n - 1);
      assert seq(n, i => 0)[..n - 1] == seq(n - 1, i => 0);
    }
  }
}
