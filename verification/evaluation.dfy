/** The read-only passes of the solver (software/pbqp/pbqp.cpp: EvaluateActiveCore,
    pbqp_evaluate, RemainingCoreLowerBound, ReconstructSolution, EnumerateActiveCore,
    pbqp_bruteforce), each proved to compute the function that specifies it. */
module Evaluation {
  import opened Basics
  import opened Costs
  import opened Graphs
  import opened Reductions
  import opened Runs
  import Search
  import Enumeration

  // --------------------------------------------------------------- summation

  lemma {:induction false} FoldRange(terms: seq<int>)
    ensures INT32_MIN <= Fold(terms) <= INF
  {
    if |terms| > 0 {
      FoldRange(terms[..|terms| - 1]);
    }
  }

  /** The running sum over one more term; a zero term may be skipped. */
  lemma FoldStep(terms: seq<int>, i: nat)
    requires i < |terms|
    ensures Fold(terms[..i + 1]) == Add(Fold(terms[..i]), terms[i])
    ensures terms[i] == 0 ==> Fold(terms[..i + 1]) == Fold(terms[..i])
  {
    assert terms[..i + 1][..i] == terms[..i];
    FoldRange(terms[..i]);
  }

  /** The running sum after all of `left` and the first `k` terms of `right`. */
  function SumTo(left: seq<int>, right: seq<int>, k: nat): int
    requires k <= |right|
  {
    Fold((left + right)[..|left| + k])
  }

  lemma SumToStep(left: seq<int>, right: seq<int>, k: nat)
    requires k < |right|
    ensures SumTo(left, right, k + 1) == Add(SumTo(left, right, k), right[k])
    ensures right[k] == 0 ==> SumTo(left, right, k + 1) == SumTo(left, right, k)
  {
    FoldStep(left + right, |left| + k);
  }

  lemma SumToEnds(left: seq<int>, right: seq<int>)
    ensures SumTo(left, right, 0) == Fold(left) && SumTo(left, right, |right|) == Fold(left + right)
  {
    assert (left + right)[..|left|] == left;
    assert (left + right)[..|left| + |right|] == left + right;
  }

  /** The cost of the active part of the graph. */
  method EvaluateActiveCore(s: State, x: Assignment) returns (total: int)
    requires GraphOk(s) && Valid(s, x)
    ensures total == EvaluateCore(s, x)
  {
    ghost var terms := NodeTerms(s, x);
    total := 0;
    for i := 0 to |s.nodes|
      invariant total == Fold(terms[..i])
    {
      FoldStep(terms, i);
      if s.nodes[i].active {
        total := Add(total, s.nodes[i].unary[x[i]]);
      }
    }
    assert terms[..|s.nodes|] == terms;
    total := AddEdges(s, x, total, terms);
  }

  method AddEdges(s: State, x: Assignment, before: int, ghost left: seq<int>) returns (total: int)
    requires GraphOk(s) && Valid(s, x) && before == Fold(left)
    ensures total == Fold(left + EdgeTerms(s, x))
  {
    ghost var right := EdgeTerms(s, x);
    SumToEnds(left, right);
    total := before;
    for k := 0 to |s.edges|
      invariant total == SumTo(left, right, k)
    {
      SumToStep(left, right, k);
      assert EdgeOk(s, s.edges[k]);
      if s.edges[k].active {
        total := Add(total, s.edges[k].cost[x[s.edges[k].first]][x[s.edges[k].second]]);
      }
    }
  }

  ghost predicate AllActive(s: State) { forall i :: 0 <= i < |s.nodes| ==> s.nodes[i].active }

  /** The public evaluation reads every node's unary vector without looking at its flag, and does
      not add the offset. When that is the objective is the subject of `StaleCosts`. */
  method Evaluate(s: State, x: Assignment) returns (total: int)
    requires GraphOk(s) && Valid(s, x)
    ensures total == Fold(StoredTerms(s, x) + EdgeTerms(s, x))
    ensures AllActive(s) ==> total == EvaluateCore(s, x)
    ensures AllActive(s) && Safe(s) && s.offset == 0 ==> ToExt(total) == Objective(s, x)
  {
    ghost var terms := StoredTerms(s, x);
    total := 0;
    for i := 0 to |s.nodes|
      invariant total == Fold(terms[..i])
    {
      FoldStep(terms, i);
      total := Add(total, s.nodes[i].unary[x[i]]);
    }
    assert terms[..|s.nodes|] == terms;
    total := AddEdges(s, x, total, terms);
    if AllActive(s) {
      assert StoredTerms(s, x) == NodeTerms(s, x);
      if Safe(s) {
        EvaluateExact(s, x);
      }
    }
  }

  /** The selected unary cost of every node, active or not. */
  function StoredTerms(s: State, x: Assignment): (terms: seq<int>)
    ensures |terms| == |s.nodes|
  {
    seq(|s.nodes|, i requires 0 <= i < |s.nodes| =>
      if At(x, i) < |s.nodes[i].unary| then s.nodes[i].unary[At(x, i)] else 0)
  }

  // ------------------------------------------------------------- lower bound

  method UnaryMinimum(unary: seq<int>) returns (minimum: int)
    requires |unary| > 0
    ensures minimum == FirstMin(unary).value
  {
    minimum := unary[0];
    ghost var at := 0;
    for v := 1 to |unary|
      invariant at < v && minimum == unary[at] && IsFirstMin(unary[..v], MinArg(minimum, at))
    {
      assert unary[..v + 1][..v] == unary[..v];
      if unary[v] < minimum {
        minimum, at := unary[v], v;
      }
    }
    assert unary[..|unary|] == unary;
    FirstMinUnique(unary, MinArg(minimum, at));
  }

  /** `m` is the least entry of the matrix; it starts from the first entry. */
  method MatrixMinimum(cost: seq<seq<int>>, rows: nat, columns: nat) returns (minimum: int)
    requires rows > 0 && columns > 0 && rows <= |cost|
    requires forall i :: 0 <= i < rows ==> columns <= |cost[i]|
    ensures minimum == Search.MatrixMin(cost, rows, columns)
  {
    minimum := cost[0][0];
    ghost var p, q := 0, 0;
    for i := 0 to rows
      invariant p < rows && q < columns && minimum == Entry(cost, p, q)
      invariant forall r, c :: 0 <= r < i && 0 <= c < columns ==> minimum <= Entry(cost, r, c)
    {
      ghost var before := minimum;
      for j := 0 to columns
        invariant p < rows && q < columns && minimum == Entry(cost, p, q) && minimum <= before
        invariant forall c :: 0 <= c < j ==> minimum <= Entry(cost, i, c)
      {
        if cost[i][j] < minimum {
          minimum := cost[i][j];
          p, q := i, j;
        }
      }
    }
    ghost var m := Search.MatrixMin(cost, rows, columns);
    assert m <= Entry(cost, p, q);
  }

  /** The relaxation bound of the active part. */
  method RemainingCoreLowerBound(s: State) returns (bound: int)
    requires GraphOk(s)
    ensures bound == Search.LowerBound(s)
  {
    ghost var terms := Search.NodeMins(s);
    bound := 0;
    for i := 0 to |s.nodes|
      invariant bound == Fold(terms[..i])
    {
      FoldStep(terms, i);
      if s.nodes[i].active {
        var minimum := UnaryMinimum(s.nodes[i].unary);
        bound := Add(bound, minimum);
      }
    }
    assert terms[..|s.nodes|] == terms;
    bound := AddEdgeMinima(s, bound, terms);
  }

  method AddEdgeMinima(s: State, before: int, ghost left: seq<int>) returns (bound: int)
    requires GraphOk(s) && before == Fold(left)
    ensures bound == Fold(left + Search.EdgeMins(s))
  {
    ghost var right := Search.EdgeMins(s);
    SumToEnds(left, right);
    bound := before;
    for k := 0 to |s.edges|
      invariant bound == SumTo(left, right, k)
    {
      SumToStep(left, right, k);
      assert EdgeOk(s, s.edges[k]);
      if s.edges[k].active {
        var minimum := MatrixMinimum(s.edges[k].cost, s.nodes[s.edges[k].first].domain,
                                     s.nodes[s.edges[k].second].domain);
        bound := Add(bound, minimum);
      }
    }
  }

  // ---------------------------------------------------------- reconstruction

  /** Replays the records last to first, in place. Whatever the entries of eliminated nodes held,
      every value a record consults is already final and legal. */
  method ReconstructSolution(s: State, a: array<nat>)
    requires OrderOk(s) && a.Length == |s.nodes|
    requires forall i :: 0 <= i < a.Length && s.nodes[i].active ==> a[i] < s.nodes[i].domain
    modifies a
    ensures a[..] == Reconstruct(s, old(a[..]))
  {
    StartSettled(s, a[..]);
    var position := |s.order|;
    while position > 0
      invariant 0 <= position <= |s.order| && Settled(s, position, a[..])
      invariant Replay(s, position, a[..]) == Reconstruct(s, old(a[..]))
    {
      ReplayRecord(s, position, a);
      position := position - 1;
    }
  }

  /** Assigns the node eliminated last among the first `position` ones. */
  method ReplayRecord(s: State, position: nat, a: array<nat>)
    requires OrderOk(s) && 0 < position <= |s.order| && Settled(s, position, a[..])
    modifies a
    ensures Settled(s, position - 1, a[..])
    ensures Replay(s, position - 1, a[..]) == Replay(s, position, old(a[..]))
  {
    ghost var x := a[..];
    Consulted(s, position - 1, x);
    var u := s.order[position - 1];
    var n := s.nodes[u];
    ghost var y := SettleNext(s, position, x);
    if n.kind == R1 {
      a[u] := n.table[a[n.first]];
    } else if n.kind == R2 {
      OffsetIsProduct(a[n.first], s.nodes[n.second].domain);
      a[u] := n.table[a[n.first] * s.nodes[n.second].domain + a[n.second]];
    } else {
      a[u] := n.table[0];
    }
    assert a[..] == x[u := Choice(s, u, x)];
  }

  lemma StartSettled(s: State, x: Assignment)
    requires OrderOk(s) && |x| == |s.nodes|
    requires forall i :: 0 <= i < |x| && s.nodes[i].active ==> x[i] < s.nodes[i].domain
    ensures Settled(s, |s.order|, x)
  {
    assert s.order[..|s.order|] == s.order;
    forall i: nat | i < |x| && !Pending(s, |s.order|, i) ensures x[i] < s.nodes[i].domain {
      assert i !in s.order;
    }
  }

  /** What the p-th record consults is legal when the later ones have been replayed. */
  lemma Consulted(s: State, p: nat, x: Assignment)
    requires OrderOk(s) && p < |s.order| && Settled(s, p + 1, x)
    ensures s.order[p] < |s.nodes|
    ensures var n := s.nodes[s.order[p]];
            if n.kind == R1 then
              n.first < |x| && x[n.first] < |n.table|
            else if n.kind == R2 then
              && n.first < |x| && n.second < |x|
              && Offset(x[n.first], s.nodes[n.second].domain) + x[n.second] < |n.table|
            else |n.table| == 1
  {
    assert RecordOk(s, p);
    var n := s.nodes[s.order[p]];
    if n.kind == R1 {
      assert !Pending(s, p + 1, n.first);
    }
    if n.kind == R2 {
      assert !Pending(s, p + 1, n.first) && !Pending(s, p + 1, n.second);
    }
    if n.kind == R2 {
      SlotInRange(x[n.first], x[n.second], s.nodes[n.first].domain, s.nodes[n.second].domain);
    }
  }

  // ------------------------------------------------------------- enumeration

  /** Search nodes visited so far; a limit of zero means none. */
  class SearchControl {
    var visited: nat
    const limit: nat

    constructor (limit: nat)
      ensures this.limit == limit && visited == 0
    {
      this.limit := limit;
      visited := 0;
    }
  }

  /** Enumeration sees only the fixed values: those before `i` and those of inactive nodes. */
  lemma {:induction false} EnumerateFrame(s: State, i: nat, x: Assignment, y: Assignment,
                                          found: Search.Incumbent)
    requires i <= |s.nodes| && Enumeration.Reaches(s, i, x, y)
    ensures Enumeration.Enumerate(s, i, x, found) == Enumeration.Enumerate(s, i, y, found)
    decreases |s.nodes| - i, 1, 0
  {
    if i == |s.nodes| {
      assert x == y;
    } else if !s.nodes[i].active {
      EnumerateFrame(s, i + 1, x, y, found);
    } else {
      ValuesFrame(s, i, s.nodes[i].domain, x, y, found);
    }
  }

  lemma {:induction false} ValuesFrame(s: State, i: nat, v: nat, x: Assignment, y: Assignment,
                                       found: Search.Incumbent)
    requires i < |s.nodes| && s.nodes[i].active && Enumeration.Reaches(s, i, x, y)
    ensures Enumeration.EnumerateValues(s, i, v, x, found) == Enumeration.EnumerateValues(s, i, v, y, found)
    decreases |s.nodes| - i, 0, v
  {
    if v > 0 {
      ValuesFrame(s, i, v - 1, x, y, found);
      EnumerateFrame(s, i + 1, x[i := v - 1], y[i := v - 1],
                     Enumeration.EnumerateValues(s, i, v - 1, x, found));
    }
  }

  /** A pass that makes so many calls is stopped exactly when the limit lies before its end, and
      otherwise makes all of them. */
  ghost predicate Counts(limit: nat, before: nat, after: nat, calls: nat, hit: bool) {
    && (hit <==> limit != 0 && before <= limit < before + calls)
    && (!hit ==> after == before + calls)
  }

  /** Tries every value of the active nodes from `i` on, in place; unless the limit is hit, the
      incumbent is the first cheapest assignment, whatever the later entries of `a` held. */
  method EnumerateActiveCore(s: State, i: nat, a: array<nat>, found: Search.Incumbent,
                             control: SearchControl)
    returns (next: Search.Incumbent, hit: bool)
    requires GraphOk(s) && i <= |s.nodes| == a.Length && Valid(s, a[..])
    modifies a, control
    ensures Valid(s, a[..]) && Enumeration.Reaches(s, i, old(a[..]), a[..])
    ensures hit ==> control.limit != 0
    ensures Counts(control.limit, old(control.visited), control.visited, Enumeration.Calls(s, i), hit)
    ensures !hit ==> next == Enumeration.Enumerate(s, i, old(a[..]), found)
    decreases |s.nodes| - i, 1
  {
    if control.limit != 0 && control.visited == control.limit {
      return found, true;
    }
    control.visited := control.visited + 1;
    if i == |s.nodes| {
      var value := EvaluateActiveCore(s, a[..]);
      return Search.Better(found, value, a[..]), false;
    }
    OffsetSmall(Enumeration.Calls(s, i + 1));
    if !s.nodes[i].active {
      next, hit := EnumerateActiveCore(s, i + 1, a, found, control);
      return;
    }
    next, hit := EnumerateNode(s, i, a, found, control);
  }

  method EnumerateNode(s: State, i: nat, a: array<nat>, found: Search.Incumbent,
                       control: SearchControl)
    returns (next: Search.Incumbent, hit: bool)
    requires GraphOk(s) && i < |s.nodes| == a.Length && Valid(s, a[..]) && s.nodes[i].active
    modifies a, control
    ensures Valid(s, a[..]) && Enumeration.Reaches(s, i, old(a[..]), a[..])
    ensures hit ==> control.limit != 0
    ensures Counts(control.limit, old(control.visited), control.visited,
                   Offset(s.nodes[i].domain, Enumeration.Calls(s, i + 1)), hit)
    ensures !hit ==> next == Enumeration.EnumerateValues(s, i, s.nodes[i].domain, old(a[..]), found)
    decreases |s.nodes| - i, 0
  {
    ghost var start, calls := a[..], Enumeration.Calls(s, i + 1);
    next := found;
    for v := 0 to s.nodes[i].domain
      invariant Valid(s, a[..]) && Enumeration.Reaches(s, i, start, a[..])
      invariant next == Enumeration.EnumerateValues(s, i, v, start, found)
      invariant control.visited == old(control.visited) + Offset(v, calls)
      invariant control.limit != 0 && old(control.visited) <= control.limit ==> control.visited <= control.limit
    {
      ghost var before := next;
      OffsetMonotone(v + 1, s.nodes[i].domain, calls);
      a[i] := v;
      ghost var x := a[..];
      EnumerateFrame(s, i + 1, start[i := v], x, before);
      next, hit := EnumerateActiveCore(s, i + 1, a, next, control);
      if hit {
        return;
      }
    }
    hit := false;
  }
}
