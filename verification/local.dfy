/** Local search (software/pbqp/pbqp.cpp: RunLocalDescent, SolveLocalSearch). */
module LocalSearch {
  import opened Costs
  import opened Graphs
  import opened Kernels
  import opened Runs
  import opened Descent
  import opened Evaluation
  import Search

  /** The score of value `v` of `u` after the first `k` edge slots. */
  ghost function PartialScore(s: State, x: Assignment, u: nat, v: nat, k: nat): int
    requires u < |s.nodes| && k <= |s.edges|
  {
    Fold(LocalTerms(s, With(x, u, v), u)[..k + 1])
  }

  lemma PartialStart(s: State, x: Assignment, u: nat, v: nat)
    requires Good(s) && Valid(s, x) && u < |s.nodes| && s.nodes[u].active && v < s.nodes[u].domain
    ensures PartialScore(s, x, u, v, 0) == s.nodes[u].unary[v]
  {
    var w :| Fits(s, w);
    assert UnaryFits(s.nodes[u], w.node[u]);
    TotalMember(w.node, u);
    var y := With(x, u, v);
    var terms := LocalTerms(s, y, u);
    FoldStep(terms, 0);
    assert terms[..0] == [];
    assert terms[0] == s.nodes[u].unary[v];
  }

  lemma PartialStep(s: State, x: Assignment, u: nat, v: nat, k: nat)
    requires u < |s.nodes| == |x| && k < |s.edges| && EdgeOk(s, s.edges[k])
    ensures PartialScore(s, x, u, v, k + 1)
            == if Touches(s.edges[k], u)
               then var n := Other(s.edges[k], u);
                    Add(PartialScore(s, x, u, v, k), CostAt(s.edges[k], n, At(x, n), v))
               else PartialScore(s, x, u, v, k)
  {
    var terms := LocalTerms(s, With(x, u, v), u);
    FoldStep(terms, k + 1);
    assert terms[k + 1] == LocalEdges(s, With(x, u, v), u)[k];
  }

  /** Adds the slice of edge `k` at the neighbour's current value to all scores. */
  method AddSlice(s: State, x: Assignment, u: nat, k: nat, before: seq<int>) returns (scores: seq<int>)
    requires u < |s.nodes| == |x| && k < |s.edges| && EdgeOk(s, s.edges[k])
    requires forall v: nat :: v < |before| ==> before[v] == PartialScore(s, x, u, v, k)
    ensures |scores| == |before|
    ensures forall v: nat :: v < |scores| ==> scores[v] == PartialScore(s, x, u, v, k + 1)
  {
    scores := before;
    var e := s.edges[k];
    if !Touches(e, u) {
      forall v: nat | v < |before| ensures before[v] == PartialScore(s, x, u, v, k + 1) {
        PartialStep(s, x, u, v, k);
      }
      return;
    }
    var n := Other(e, u);
    for v := 0 to |before|
      invariant |scores| == |before|
      invariant forall i: nat :: i < v ==> scores[i] == PartialScore(s, x, u, i, k + 1)
      invariant forall i: nat :: v <= i < |before| ==> scores[i] == before[i]
    {
      PartialStep(s, x, u, v, k);
      scores := scores[v := Add(scores[v], CostAt(e, n, x[n], v))];
    }
  }

  /** The local score of every value of `u`. */
  method LocalScores(s: State, x: Assignment, u: nat) returns (scores: seq<int>)
    requires Good(s) && Valid(s, x) && u < |s.nodes| && s.nodes[u].active
    ensures |scores| == s.nodes[u].domain
    ensures forall v: nat :: v < |scores| ==> scores[v] == Score(s, With(x, u, v), u)
  {
    scores := s.nodes[u].unary;
    forall v: nat | v < |scores| ensures scores[v] == PartialScore(s, x, u, v, 0) {
      PartialStart(s, x, u, v);
    }
    for k := 0 to |s.edges|
      invariant |scores| == s.nodes[u].domain
      invariant forall v: nat :: v < |scores| ==> scores[v] == PartialScore(s, x, u, v, k)
    {
      assert EdgeOk(s, s.edges[k]);
      scores := AddSlice(s, x, u, k, scores);
    }
    forall v: nat | v < |scores| ensures scores[v] == Score(s, With(x, u, v), u) {
      var terms := LocalTerms(s, With(x, u, v), u);
      assert terms[..|s.edges| + 1] == terms;
    }
  }

  /** The kernel's minimum of scores plus zeros is the minimum of the scores. */
  lemma ZerosNeutral(scores: seq<int>, zeros: seq<int>)
    requires |zeros| == |scores| && forall i :: 0 <= i < |zeros| ==> zeros[i] == 0
    requires forall i :: 0 <= i < |scores| ==> INT32_MIN <= scores[i] <= INF
    ensures Accepted2(scores, zeros) && Sums2(scores, zeros) == scores
  {
  }

  /** Moves node `u` to its first cheapest value if that is strictly better. */
  method DescendNode(s: State, a: array<nat>, u: nat, ghost look: Look) returns (moved: bool)
    requires IsLook(look, s) && Good(s) && a.Length == |s.nodes| && Valid(s, a[..]) && u < |s.nodes|
             && s.nodes[u].active
    modifies a
    ensures Valid(s, a[..])
    ensures look(old(a[..]), u, a[..])
    ensures moved ==> Measure(s, a[..]) < Measure(s, old(a[..]))
                      && Le(Objective(s, a[..]), Objective(s, old(a[..])))
    ensures !moved ==> a[..] == old(a[..]) && NodeSettled(s, a[..], u)
  {
    ghost var x := a[..];
    var scores := LocalScores(s, a[..], u);
    forall v: nat | v < |scores| ensures INT32_MIN <= scores[v] <= INF {
      FoldRange(LocalTerms(s, With(x, u, v), u));
    }
    var zeros := seq(|scores|, i => 0);
    ZerosNeutral(scores, zeros);
    var ok, best := Min2(scores, zeros);
    assert With(x, u, x[u]) == x;
    FirstLeastScore(s, x, u, scores, best);
    assert Seen(x, u, x) && Seen(x, u, With(x, u, best.index));
    moved := best.value < scores[a[u]];
    if moved {
      ScoreCompares(s, x, u, best.index);
      MoveLowersMeasure(s, x, u, best.index);
      a[u] := best.index;
      assert a[..] == x[u := best.index];
    }
  }

  /** One pass over all nodes. */
  method Sweep(s: State, a: array<nat>, ghost look: Look) returns (changed: bool)
    requires IsLook(look, s) && Good(s) && AllActive(s) && a.Length == |s.nodes| && Valid(s, a[..])
    modifies a
    ensures Valid(s, a[..]) && Le(Objective(s, a[..]), Objective(s, old(a[..])))
    ensures changed ==> Measure(s, a[..]) < Measure(s, old(a[..]))
    ensures !changed ==> a[..] == old(a[..]) && LocallyOptimal(s, a[..])
    ensures SweepsTo(look, old(a[..]), |s.nodes|, a[..])
  {
    changed := false;
    ghost var x := a[..];
    for u := 0 to |s.nodes|
      invariant Valid(s, a[..]) && Le(Objective(s, a[..]), Objective(s, x))
      invariant changed ==> Measure(s, a[..]) < Measure(s, x)
      invariant !changed ==> a[..] == x && forall j :: 0 <= j < u ==> NodeSettled(s, x, j)
      invariant SweepsTo(look, x, u, a[..])
    {
      ghost var before := a[..];
      var moved := DescendNode(s, a, u, look);
      SweepsNext(look, x, u, before, a[..]);
      changed := changed || moved;
    }
    if !changed {
      SettledIsOptimal(s, x);
    }
  }

  /** Sweeps until nothing moves. Descent ends, in an assignment that no single change improves,
      never costlier than where it started. */
  method RunLocalDescent(s: State, a: array<nat>) returns (optimum: int)
    requires Good(s) && AllActive(s) && a.Length == |s.nodes| && Valid(s, a[..])
    modifies a
    ensures Valid(s, a[..]) && LocallyOptimal(s, a[..])
    ensures Le(Objective(s, a[..]), Objective(s, old(a[..])))
    ensures optimum == EvaluateCore(s, a[..])
    ensures Descends(s, old(a[..]), a[..])
  {
    ghost var look := LookOf(s);
    assert IsLook(look, s);
    optimum := SweepUntilSettled(s, a, look);
  }

  method SweepUntilSettled(s: State, a: array<nat>, ghost look: Look) returns (optimum: int)
    requires IsLook(look, s) && Good(s) && AllActive(s) && a.Length == |s.nodes| && Valid(s, a[..])
    modifies a
    ensures Valid(s, a[..]) && LocallyOptimal(s, a[..])
    ensures Le(Objective(s, a[..]), Objective(s, old(a[..])))
    ensures optimum == EvaluateCore(s, a[..])
    ensures EndsAt(look, |s.nodes|, old(a[..]), a[..])
  {
    var changed := true;
    ghost var start, sweeps := a[..], 0;
    while changed
      invariant Valid(s, a[..]) && Le(Objective(s, a[..]), Objective(s, old(a[..])))
      invariant !changed ==> LocallyOptimal(s, a[..]) && SweepsTo(look, a[..], |s.nodes|, a[..])
      invariant DescendsTo(look, |s.nodes|, start, sweeps, a[..])
      decreases Measure(s, a[..]) + INF, if changed then 1 else 0
    {
      MeasureBounded(s, a[..]);
      ghost var before := a[..];
      changed := Sweep(s, a, look);
      DescendsNext(look, |s.nodes|, start, sweeps, before, a[..]);
      sweeps := sweeps + 1;
    }
    optimum := Evaluate(s, a[..]);
  }

  /** A local optimum of `s` with its cost, no worse than the assignment `start`. */
  ghost predicate LocalOptimum(s: State, optimum: int, x: Assignment, start: Assignment) {
    && Valid(s, x) && LocallyOptimal(s, x)
    && optimum <= INF && Objective(s, x) == ToExt(optimum)
    && Le(Objective(s, x), Objective(s, start))
  }

  /** A descent from `a` in place. */
  method Descend(s: State, a: array<nat>) returns (optimum: int)
    requires Good(s) && AllActive(s) && s.offset == 0 && a.Length == |s.nodes| && Valid(s, a[..])
    modifies a
    ensures LocalOptimum(s, optimum, a[..], old(a[..])) && Descends(s, old(a[..]), a[..])
  {
    optimum := RunLocalDescent(s, a);
    EvaluateExact(s, a[..]);
  }

  // -------------------------------------------------------------------- restarts

  datatype Change = Change(node: nat, value: nat)

  /** The values 1 to `v - 1` of node `u`. */
  function NodeChanges(u: nat, v: nat): (changes: seq<Change>)
    requires v >= 1
    ensures |changes| == v - 1
  {
    if v == 1 then [] else NodeChanges(u, v - 1) + [Change(u, v - 1)]
  }

  /** All nonzero values of the first `u` nodes, in order. */
  function ChangesTo(s: State, u: nat): seq<Change>
    requires u <= |s.nodes| && forall i :: 0 <= i < |s.nodes| ==> s.nodes[i].domain >= 1
  {
    if u == 0 then [] else ChangesTo(s, u - 1) + NodeChanges(u - 1, s.nodes[u - 1].domain)
  }

  /** One restart: the change it applies, where its descent starts and where it ends. */
  datatype Restart = Restart(change: Change, start: Assignment, end: Assignment)

  function ChangesOf(restarts: seq<Restart>): (changes: seq<Change>)
    ensures |changes| == |restarts|
  {
    seq(|restarts|, k requires 0 <= k < |restarts| => restarts[k].change)
  }

  /** What the working assignment holds before the next restart: the last descent's result with the
      changed node set back to zero. */
  function Held(first: Assignment, restarts: seq<Restart>): Assignment {
    if |restarts| == 0 then first
    else
      var last := restarts[|restarts| - 1];
      if last.change.node < |last.end| then last.end[last.change.node := 0] else last.end
  }

  /** A restart applies its change to what was held, and ends where descent takes it, in a local
      optimum no costlier than its start. */
  ghost predicate RestartOk(s: State, held: Assignment, r: Restart) {
    && r.change.node < |held| == |s.nodes| && r.start == held[r.change.node := r.change.value]
    && Valid(s, r.end) && LocallyOptimal(s, r.end) && Le(Objective(s, r.end), Objective(s, r.start))
    && Descends(s, r.start, r.end)
  }

  /** Restarts one after another, the first from what the initial descent left. */
  ghost predicate Restarts(s: State, first: Assignment, restarts: seq<Restart>) {
    |restarts| == 0
    || (var last := |restarts| - 1;
        Restarts(s, first, restarts[..last]) && RestartOk(s, Held(first, restarts[..last]), restarts[last]))
  }

  /** Zero at every node but `u`. */
  ghost predicate ZeroOff(x: Assignment, u: nat) {
    forall i {:trigger x[i]} :: 0 <= i < |x| && i != u ==> x[i] == 0
  }

  /** A restart starts from a single change of the all-zero assignment exactly when what was held is
      zero at all other nodes. */
  lemma StartsFromChange(s: State, held: Assignment, r: Restart)
    requires RestartOk(s, held, r)
    ensures r.start == Search.Origin(s)[r.change.node := r.change.value] <==> ZeroOff(held, r.change.node)
  {
    var u, v, origin := r.change.node, r.change.value, Search.Origin(s);
    if r.start == origin[u := v] {
      forall i | 0 <= i < |held| && i != u ensures held[i] == 0 {
        assert r.start[i] == held[i] && origin[u := v][i] == 0;
      }
    } else {
      var i :| 0 <= i < |held| && r.start[i] != origin[u := v][i];
      assert i != u && held[i] != 0;
    }
  }

  /** No local optimum found is cheaper. */
  ghost predicate Cheapest(s: State, optimum: int, first: Assignment, restarts: seq<Restart>) {
    && Le(ToExt(optimum), Objective(s, first))
    && forall k {:trigger restarts[k]} :: 0 <= k < |restarts| ==> Le(ToExt(optimum), Objective(s, restarts[k].end))
  }

  /** The assignment was found, and everything found before it costs more. */
  ghost predicate Found(s: State, assignment: Assignment, first: Assignment, restarts: seq<Restart>) {
    || assignment == first
    || (!Le(Objective(s, first), Objective(s, assignment))
        && exists k {:trigger restarts[k]} :: 0 <= k < |restarts| && FoundAt(s, assignment, restarts, k))
  }

  ghost predicate FoundAt(s: State, assignment: Assignment, restarts: seq<Restart>, k: nat) {
    && k < |restarts| && assignment == restarts[k].end
    && forall j {:trigger restarts[j]} :: 0 <= j < k ==> !Le(Objective(s, restarts[j].end), Objective(s, assignment))
  }

  /** The state of the search after these restarts. */
  ghost predicate Searched(s: State, optimum: int, assignment: Assignment, first: Assignment, restarts: seq<Restart>) {
    && LocalOptimum(s, optimum, assignment, Search.Origin(s)) && Restarts(s, first, restarts)
    && Cheapest(s, optimum, first, restarts) && Found(s, assignment, first, restarts)
  }

  lemma RestartsNext(s: State, first: Assignment, restarts: seq<Restart>, r: Restart)
    requires Restarts(s, first, restarts) && RestartOk(s, Held(first, restarts), r)
    ensures Restarts(s, first, restarts + [r])
  {
    assert (restarts + [r])[..|restarts|] == restarts;
  }

  lemma FoundKept(s: State, assignment: Assignment, first: Assignment, restarts: seq<Restart>, r: Restart)
    requires Found(s, assignment, first, restarts)
    ensures Found(s, assignment, first, restarts + [r])
  {
    var all := restarts + [r];
    if assignment != first {
      var k :| 0 <= k < |restarts| && FoundAt(s, assignment, restarts, k);
      assert all[k] == restarts[k];
      forall j | 0 <= j < k ensures !Le(Objective(s, all[j].end), Objective(s, assignment)) {
        assert all[j] == restarts[j];
      }
      assert FoundAt(s, assignment, all, k);
    }
  }

  /** A cheaper end than everything before. */
  lemma FoundNow(s: State, optimum: int, first: Assignment, restarts: seq<Restart>, r: Restart, candidate: int)
    requires Cheapest(s, optimum, first, restarts) && Objective(s, r.end) == ToExt(candidate)
    requires candidate < optimum <= INF
    ensures Found(s, r.end, first, restarts + [r])
  {
    var all := restarts + [r];
    forall j | 0 <= j < |restarts| ensures !Le(Objective(s, all[j].end), Objective(s, r.end)) {
      assert all[j] == restarts[j];
    }
    assert all[|restarts|] == r;
    assert FoundAt(s, r.end, all, |restarts|);
  }

  lemma CheapestNext(s: State, optimum: int, first: Assignment, restarts: seq<Restart>, r: Restart, best: int)
    requires Cheapest(s, optimum, first, restarts) && Le(ToExt(best), ToExt(optimum))
             && Le(ToExt(best), Objective(s, r.end))
    ensures Cheapest(s, best, first, restarts + [r])
  {
    var all := restarts + [r];
    forall k | 0 <= k < |all| ensures Le(ToExt(best), Objective(s, all[k].end)) {
      if k < |restarts| {
        assert Le(ToExt(optimum), Objective(s, restarts[k].end));
      }
    }
  }

  lemma SearchedNext(s: State, optimum: int, assignment: Assignment, first: Assignment, restarts: seq<Restart>,
                     r: Restart, candidate: int)
    requires Searched(s, optimum, assignment, first, restarts) && RestartOk(s, Held(first, restarts), r)
    requires LocalOptimum(s, candidate, r.end, r.start)
    ensures if candidate < optimum then Searched(s, candidate, r.end, first, restarts + [r])
            else Searched(s, optimum, assignment, first, restarts + [r])
  {
    RestartsNext(s, first, restarts, r);
    FoundKept(s, assignment, first, restarts, r);
    if candidate < optimum {
      FoundNow(s, optimum, first, restarts, r, candidate);
    }
    CheapestNext(s, optimum, first, restarts, r, if candidate < optimum then candidate else optimum);
  }

  /** A change and the descent from it. */
  method DescendChanged(s: State, initial: array<nat>, u: nat, v: nat) returns (candidate: int, ghost r: Restart)
    requires Good(s) && AllActive(s) && s.offset == 0 && initial.Length == |s.nodes| && u < |s.nodes|
    requires 0 < v < s.nodes[u].domain && Valid(s, initial[..])
    modifies initial
    ensures r.change == Change(u, v) && r.end == initial[..] && RestartOk(s, old(initial[..]), r)
    ensures LocalOptimum(s, candidate, r.end, r.start)
  {
    ghost var held := initial[..];
    initial[u] := v;
    ghost var start := initial[..];
    assert start == held[u := v];
    candidate := Descend(s, initial);
    r := Restart(Change(u, v), start, initial[..]);
  }

  /** One restart in place. */
  method RunRestart(s: State, initial: array<nat>, u: nat, v: nat, optimum: int, assignment: Assignment,
                    ghost first: Assignment, ghost restarts: seq<Restart>)
    returns (optimum': int, assignment': Assignment, ghost r: Restart)
    requires Good(s) && AllActive(s) && s.offset == 0 && initial.Length == |s.nodes| && u < |s.nodes|
    requires 0 < v < s.nodes[u].domain && Valid(s, initial[..]) && initial[..] == Held(first, restarts)
    requires Searched(s, optimum, assignment, first, restarts)
    modifies initial
    ensures r.change == Change(u, v) && Searched(s, optimum', assignment', first, restarts + [r])
    ensures Valid(s, initial[..]) && initial[..] == Held(first, restarts + [r])
  {
    optimum', assignment' := optimum, assignment;
    var candidate;
    candidate, r := DescendChanged(s, initial, u, v);
    SearchedNext(s, optimum, assignment, first, restarts, r, candidate);
    if candidate < optimum {
      optimum', assignment' := candidate, initial[..];
    }
    initial[u] := 0;
    assert initial[..] == r.end[u := 0];
    HeldNext(first, restarts, r);
  }

  lemma HeldNext(first: Assignment, restarts: seq<Restart>, r: Restart)
    requires r.change.node < |r.end|
    ensures Held(first, restarts + [r]) == r.end[r.change.node := 0]
  {
  }

  /** The restarts of one node. */
  method RestartNode(s: State, initial: array<nat>, u: nat, optimum: int, assignment: Assignment,
                     ghost first: Assignment, ghost before: seq<Restart>)
    returns (optimum': int, assignment': Assignment, ghost restarts: seq<Restart>)
    requires Good(s) && AllActive(s) && s.offset == 0 && initial.Length == |s.nodes| && u < |s.nodes|
    requires Valid(s, initial[..]) && initial[..] == Held(first, before)
    requires Searched(s, optimum, assignment, first, before)
    modifies initial
    ensures Searched(s, optimum', assignment', first, restarts) && Valid(s, initial[..])
    ensures initial[..] == Held(first, restarts) && s.nodes[u].domain >= 1
    ensures ChangesOf(restarts) == ChangesOf(before) + NodeChanges(u, s.nodes[u].domain)
  {
    optimum', assignment', restarts := optimum, assignment, before;
    ghost var made := ChangesOf(before);
    for v := 1 to s.nodes[u].domain
      invariant Valid(s, initial[..]) && initial[..] == Held(first, restarts)
      invariant Searched(s, optimum', assignment', first, restarts)
      invariant ChangesOf(restarts) == made + NodeChanges(u, v)
    {
      ghost var r;
      optimum', assignment', r := RunRestart(s, initial, u, v, optimum', assignment', first, restarts);
      ChangesNext(restarts, r, made, u, v);
      restarts := restarts + [r];
    }
  }

  lemma ChangesNext(restarts: seq<Restart>, r: Restart, made: seq<Change>, u: nat, v: nat)
    requires v >= 1 && ChangesOf(restarts) == made + NodeChanges(u, v) && r.change == Change(u, v)
    ensures ChangesOf(restarts + [r]) == made + NodeChanges(u, v + 1)
  {
    ChangesAppend(restarts, r);
  }

  /** Descent from the all-zero assignment, then restarts that change one node of what the previous
      descent left; keeps the first cheapest local optimum. */
  method SolveLocalSearch(s: State)
    returns (optimum: int, assignment: Assignment, ghost first: Assignment, ghost restarts: seq<Restart>)
    requires Good(s) && AllActive(s) && s.offset == 0
    ensures LocalOptimum(s, optimum, assignment, Search.Origin(s))
    ensures Valid(s, first) && LocallyOptimal(s, first) && Searched(s, optimum, assignment, first, restarts)
    ensures Descends(s, Search.Origin(s), first) && ChangesOf(restarts) == ChangesTo(s, |s.nodes|)
  {
    var initial := new nat[|s.nodes|](i => 0);
    assert initial[..] == Search.Origin(s);
    optimum := Descend(s, initial);
    assignment, first, restarts := initial[..], initial[..], [];
    for u := 0 to |s.nodes|
      invariant Valid(s, initial[..]) && initial[..] == Held(first, restarts)
      invariant Searched(s, optimum, assignment, first, restarts) && ChangesOf(restarts) == ChangesTo(s, u)
    {
      optimum, assignment, restarts := RestartNode(s, initial, u, optimum, assignment, first, restarts);
    }
  }

  lemma ChangesAppend(restarts: seq<Restart>, r: Restart)
    ensures ChangesOf(restarts + [r]) == ChangesOf(restarts) + [r.change]
  {
  }

  // --------------------------------------------------------------------- witness

  /** Two nodes that both prefer their second value. */
  function TwoNodes(): State {
    State(2, [Node(true, 2, [1, 0], Unreduced, 0, 0, []), Node(true, 2, [1, 0], Unreduced, 0, 0, [])], [], 0, 0, [])
  }

  lemma PairSum(a: int, b: int)
    requires a != INF && b != INF
    ensures ExtSum([a, b]) == Fin(a + b)
  {
    assert [a, b][..1] == [a] && [a][..0] == [];
    assert ExtSum([a]) == Fin(a);
  }

  lemma TwoNodesCost(x: Assignment)
    requires |x| == 2 && x[0] <= 1 && x[1] <= 1
    ensures Objective(TwoNodes(), x) == Fin((1 - x[0]) + (1 - x[1]))
  {
    var s := TwoNodes();
    assert EdgeTerms(s, x) == [];
    assert NodeTerms(s, x) == [1 - x[0], 1 - x[1]];
    PairSum(1 - x[0], 1 - x[1]);
    assert ExtSum([]) == Fin(0);
  }

  lemma TwoNodesMove(x: Assignment, u: nat)
    requires |x| == 2 && x[0] <= 1 && x[1] <= 1 && u < 2
    requires Le(Objective(TwoNodes(), x), Objective(TwoNodes(), x[u := 1]))
    ensures x[u] == 1
  {
    TwoNodesCost(x);
    TwoNodesCost(x[u := 1]);
  }

  lemma TwoNodesValid(x: Assignment)
    requires Valid(TwoNodes(), x)
    ensures |x| == 2 && x[0] <= 1 && x[1] <= 1
  {
  }

  lemma TwoNodesOptimum(x: Assignment)
    requires Valid(TwoNodes(), x) && LocallyOptimal(TwoNodes(), x)
    ensures x == [1, 1]
  {
    TwoNodesValid(x);
    assert Le(Objective(TwoNodes(), x), Objective(TwoNodes(), With(x, 0, 1)));
    assert Le(Objective(TwoNodes(), x), Objective(TwoNodes(), With(x, 1, 1)));
    TwoNodesMove(x, 0);
    TwoNodesMove(x, 1);
  }

  /** Every run on this problem restarts its first node from the second value of both nodes, not from
      a single change of the all-zero assignment. */
  lemma RestartElsewhere(first: Assignment, restarts: seq<Restart>)
    requires var s := TwoNodes();
             && Valid(s, first) && LocallyOptimal(s, first) && Restarts(s, first, restarts)
             && ChangesOf(restarts) == ChangesTo(s, |s.nodes|)
    ensures |restarts| == 2 && restarts[0].change == Change(0, 1)
    ensures restarts[0].start == [1, 1] != Search.Origin(TwoNodes())[0 := 1]
  {
    var s := TwoNodes();
    TwoNodesOptimum(first);
    assert NodeChanges(0, 2) == [Change(0, 1)] && NodeChanges(1, 2) == [Change(1, 1)];
    assert ChangesTo(s, 1) == [Change(0, 1)] && ChangesTo(s, 2) == [Change(0, 1), Change(1, 1)];
    assert restarts[0].change == ChangesOf(restarts)[0];
    assert restarts[..1][..0] == [] && restarts[..1][0] == restarts[0];
    assert Restarts(s, first, restarts[..1]);
    assert RestartOk(s, Held(first, []), restarts[0]);
    assert Search.Origin(s)[0 := 1] == [1, 0];
  }
}
