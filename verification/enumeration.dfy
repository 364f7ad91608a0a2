/** Exhaustive enumeration (software/pbqp/pbqp.cpp: EvaluateActiveCore, EnumerateActiveCore,
    Enumerate). */
module Enumeration {
  import opened Basics
  import opened Costs
  import opened Graphs
  import opened Reductions
  import opened Runs
  import opened Search

  /** The first cheapest assignment among those that keep `x` except on active nodes from `i`
      on, tried in lexicographic order after the incumbent `found`. */
  function Enumerate(s: State, i: nat, x: Assignment, found: Incumbent): Incumbent
    requires i <= |s.nodes| == |x|
    decreases |s.nodes| - i, 1, 0
  {
    if i == |s.nodes| then Better(found, EvaluateCore(s, x), x)
    else if !s.nodes[i].active then Enumerate(s, i + 1, x, found)
    else EnumerateValues(s, i, s.nodes[i].domain, x, found)
  }

  /** After the first `v` values of node `i`. */
  function EnumerateValues(s: State, i: nat, v: nat, x: Assignment, found: Incumbent): Incumbent
    requires i < |s.nodes| == |x|
    decreases |s.nodes| - i, 0, v
  {
    if v == 0 then found
    else Enumerate(s, i + 1, x[i := v - 1], EnumerateValues(s, i, v - 1, x, found))
  }

  /** The calls that enumeration makes from node `i` on. */
  function Calls(s: State, i: nat): nat
    requires i <= |s.nodes|
    decreases |s.nodes| - i
  {
    if i == |s.nodes| then 1
    else 1 + Offset(if s.nodes[i].active then s.nodes[i].domain else 1, Calls(s, i + 1))
  }

  /** `y` differs from `x` only on active nodes from `i` on. */
  ghost predicate Reaches(s: State, i: nat, x: Assignment, y: Assignment) {
    && |x| == |y| == |s.nodes|
    && forall j :: 0 <= j < |x| && (j < i || !s.nodes[j].active) ==> y[j] == x[j]
  }

  ghost predicate Sound(s: State, found: Incumbent) {
    found.Best? ==> Valid(s, found.assignment)
                    && found.optimum == EvaluateCore(s, found.assignment)
  }

  ghost predicate NoWorse(found: Incumbent, cost: int) { found.Best? && found.optimum <= cost }

  /** An incumbent is only ever replaced by a cheaper one. */
  ghost predicate Improves(found: Incumbent, next: Incumbent) {
    found.Best? ==> next.Best? && next.optimum <= found.optimum
  }

  lemma {:induction false} EnumerateSound(s: State, i: nat, x: Assignment, found: Incumbent)
    returns (next: Incumbent)
    requires i <= |s.nodes| && Valid(s, x) && Sound(s, found)
    ensures next == Enumerate(s, i, x, found)
    ensures Sound(s, next) && Improves(found, next)
    decreases |s.nodes| - i, 1, 0
  {
    if i == |s.nodes| {
      next := Better(found, EvaluateCore(s, x), x);
    } else if !s.nodes[i].active {
      next := EnumerateSound(s, i + 1, x, found);
    } else {
      next := EnumerateValuesSound(s, i, s.nodes[i].domain, x, found);
    }
  }

  lemma {:induction false} EnumerateValuesSound(s: State, i: nat, v: nat, x: Assignment,
                                                found: Incumbent)
    returns (next: Incumbent)
    requires i < |s.nodes| && v <= s.nodes[i].domain && Valid(s, x) && Sound(s, found)
    ensures next == EnumerateValues(s, i, v, x, found)
    ensures Sound(s, next) && Improves(found, next)
    decreases |s.nodes| - i, 0, v
  {
    if v == 0 {
      next := found;
    } else {
      var before := EnumerateValuesSound(s, i, v - 1, x, found);
      next := EnumerateSound(s, i + 1, x[i := v - 1], before);
    }
  }

  /** Enumeration misses nothing. */
  lemma {:induction false} EnumerateComplete(s: State, i: nat, x: Assignment, found: Incumbent,
                                             y: Assignment)
    requires i <= |s.nodes| && Valid(s, x) && Valid(s, y) && Sound(s, found) && Reaches(s, i, x, y)
    ensures NoWorse(Enumerate(s, i, x, found), EvaluateCore(s, y))
    decreases |s.nodes| - i, 1, 0
  {
    if i == |s.nodes| {
      assert y == x;
    } else if !s.nodes[i].active {
      EnumerateComplete(s, i + 1, x, found, y);
    } else {
      EnumerateValuesComplete(s, i, s.nodes[i].domain, x, found, y);
    }
  }

  lemma {:induction false} EnumerateValuesComplete(s: State, i: nat, v: nat, x: Assignment,
                                                   found: Incumbent, y: Assignment)
    requires i < |s.nodes| && s.nodes[i].active && v <= s.nodes[i].domain
    requires Valid(s, x) && Valid(s, y) && Sound(s, found) && Reaches(s, i, x, y) && y[i] < v
    ensures NoWorse(EnumerateValues(s, i, v, x, found), EvaluateCore(s, y))
    decreases |s.nodes| - i, 0, v
  {
    var before := EnumerateValuesSound(s, i, v - 1, x, found);
    var z := x[i := v - 1];
    if y[i] == v - 1 {
      EnumerateComplete(s, i + 1, z, before, y);
    } else {
      EnumerateValuesComplete(s, i, v - 1, x, found, y);
      var next := EnumerateSound(s, i + 1, z, before);
    }
  }

  /** Reduce, enumerate the remaining core, reconstruct: the result is the true optimum of the
      problem the run started from, and the assignment attains it. */
  lemma CoreOptimal(o: State, s: State) returns (best: Incumbent)
    requires Good(s) && Tracks(o, s) && Below(o, s)
    ensures best == Enumerate(s, 0, Origin(s), Nothing) && best.Best?
    ensures Valid(s, best.assignment)
    ensures var optimum := Add(s.offset, best.optimum);
            Attains(o, optimum, Reconstruct(s, best.assignment)) && AtLeast(o, optimum)
  {
    best := EnumerateSound(s, 0, Origin(s), Nothing);
    EnumerateComplete(s, 0, Origin(s), Nothing, Origin(s));
    CoreAttained(o, s, best.optimum, best.assignment);
    CoreAtLeast(o, s, best);
  }

  lemma CoreAttained(o: State, s: State, cost: int, x: Assignment)
    requires Good(s) && Tracks(o, s) && Valid(s, x) && cost == EvaluateCore(s, x)
    ensures Attains(o, Add(s.offset, cost), Reconstruct(s, x))
  {
    EvaluateExact(s, x);
    ReconstructSettles(s, x);
  }

  lemma CoreAtLeast(o: State, s: State, best: Incumbent)
    requires Good(s) && Tracks(o, s) && Below(o, s)
    requires best == Enumerate(s, 0, Origin(s), Nothing) && best.Best? && Sound(s, best)
    ensures AtLeast(o, Add(s.offset, best.optimum))
  {
    forall y | Valid(o, y) ensures Le(ToExt(Add(s.offset, best.optimum)), Objective(o, y)) {
      assert Valid(s, y);
      CoreBelow(s, best, y);
    }
  }

  lemma CoreBelow(s: State, best: Incumbent, y: Assignment)
    requires Good(s) && Valid(s, y) && best == Enumerate(s, 0, Origin(s), Nothing)
    requires best.Best? && Sound(s, best)
    ensures Le(ToExt(Add(s.offset, best.optimum)), Objective(s, y))
  {
    var z := ActivePart(s, y);
    EnumerateComplete(s, 0, Origin(s), Nothing, z);
    EvaluateExact(s, z);
    EvaluateExact(s, best.assignment);
    ObjectiveFrame(s, y, z);
    var w :| Fits(s, w);
    AddMonotone(s, w, best.assignment, z);
  }

  /** `y` on active nodes, zero elsewhere. */
  function ActivePart(s: State, y: Assignment): (z: Assignment)
    requires Valid(s, y) && GraphOk(s)
    ensures Valid(s, z) && Reaches(s, 0, Origin(s), z)
    ensures forall i :: 0 <= i < |s.nodes| && s.nodes[i].active ==> At(z, i) == At(y, i)
  {
    seq(|s.nodes|, i requires 0 <= i < |s.nodes| => if s.nodes[i].active then y[i] else 0)
  }

  lemma AddMonotone(s: State, w: Budget, a: Assignment, b: Assignment)
    requires GraphOk(s) && Fits(s, w) && Valid(s, a) && Valid(s, b)
    requires EvaluateCore(s, a) <= EvaluateCore(s, b)
    ensures Le(Objective(s, a), Objective(s, b))
  {
    EvaluateParts(s, w, a);
    EvaluateParts(s, w, b);
  }

  lemma EvaluateParts(s: State, w: Budget, x: Assignment)
    requires GraphOk(s) && Fits(s, w) && Valid(s, x)
    ensures Objective(s, x) == Plus(ToExt(s.offset), ToExt(EvaluateCore(s, x)))
    ensures EvaluateCore(s, x) <= INF
  {
    TermsFit(s, w, x);
    TotalAppend(w.node, w.edge);
    FoldExact(NodeTerms(s, x) + EdgeTerms(s, x), w.node + w.edge);
    ExtSumAppend(NodeTerms(s, x), EdgeTerms(s, x));
  }
}
