/** The mutable PBQP problem (software/pbqp/pbqp.cpp and software/pbqp/pbqp.h): graph queries
    and the in-place rewrites, each proved to compute the function that specifies it. */
module Problems {
  import opened Basics
  import opened Costs
  import opened Graphs
  import opened Reductions
  import opened ReductionTwo
  import opened Conditioning
  import opened Kernels
  import opened Runs
  import opened Heuristic
  import Search

  datatype Status = Ok | CapacityError | ArgumentError | CostRangeError | Irreducible
                  | SearchLimit | Pruned | KernelError

  /** No addition of an R1 projection is refused. */
  ghost predicate R1Accepted(s: State, u: nat, k: nat)
    requires u < |s.nodes| && k < |s.edges| && Other(s.edges[k], u) < |s.nodes|
  {
    var unary := s.nodes[u].unary;
    RowsAccepted2(unary, Views(s.edges[k], u, s.nodes[Other(s.edges[k], u)].domain, |unary|))
  }

  ghost predicate R2Accepted(s: State, u: nat, k: nat, l: nat)
    requires u < |s.nodes| && k < |s.edges| && l < |s.edges|
    requires Other(s.edges[k], u) < |s.nodes| && Other(s.edges[l], u) < |s.nodes|
  {
    var unary := s.nodes[u].unary;
    AllAccepted3(unary, Views(s.edges[k], u, s.nodes[Other(s.edges[k], u)].domain, |unary|),
                 Views(s.edges[l], u, s.nodes[Other(s.edges[l], u)].domain, |unary|))
  }

  /** The entry of a row-major list for row `i` and column `j`. */
  function Slot(results: seq<MinArg>, i: nat, j: nat, columns: nat): MinArg {
    if Offset(i, columns) + j < |results| then results[Offset(i, columns) + j] else MinArg(INF, 0)
  }

  /** The views of edge `e` for the first `rows` values of the other endpoint. */
  function Views(e: Edge, u: nat, rows: nat, n: nat): (views: seq<seq<int>>)
    ensures |views| == rows
    ensures forall r :: 0 <= r < rows ==> views[r] == View(e, u, r, n)
    ensures Rectangular(views, n)
  {
    seq(rows, r requires 0 <= r => View(e, u, r, n))
  }

  /** The entries of an edge over all values of `u` when the other endpoint has value `o`. */
  function View(e: Edge, u: nat, o: nat, n: nat): (view: seq<int>)
    ensures |view| == n
  {
    seq(n, v requires 0 <= v => CostAt(e, u, v, o))
  }

  lemma R1RowIsSum(s: State, u: nat, k: nat, j: nat)
    requires u < |s.nodes| && k < |s.edges|
    ensures R1Row(s, u, k, j)
            == Sums2(s.nodes[u].unary, View(s.edges[k], u, j, |s.nodes[u].unary|))
  {
  }

  lemma R2RowIsSum(s: State, u: nat, k: nat, l: nat, i: nat, j: nat)
    requires u < |s.nodes| && k < |s.edges| && l < |s.edges|
    ensures R2Row(s, u, k, l, i, j)
            == Sums3(s.nodes[u].unary, View(s.edges[k], u, i, |s.nodes[u].unary|),
                     View(s.edges[l], u, j, |s.nodes[u].unary|))
  {
  }

  function WithMinima(unary: seq<int>, results: seq<MinArg>): (sum: seq<int>)
    requires |unary| == |results|
    ensures |sum| == |unary|
  {
    seq(|unary|, j requires 0 <= j < |unary| => Add(unary[j], results[j].value))
  }

  function Choices(results: seq<MinArg>): (table: seq<nat>)
    ensures |table| == |results|
  {
    seq(|results|, j requires 0 <= j < |results| => results[j].index)
  }

  /** Updating one entry of a partly updated vector. */
  lemma PrefixStep<T>(after: seq<T>, before: seq<T>, j: nat)
    requires |after| == |before| && j < |after|
    ensures (after[..j] + before[j..])[j] == before[j]
    ensures (after[..j] + before[j..])[j := after[j]] == after[..j + 1] + before[j + 1..]
  {
  }

  lemma EdgesLinked(s: State, u: nat)
    requires GraphOk(s)
    ensures Linked(s, u)
  {
    forall k | 0 <= k < |s.edges| && Touches(s.edges[k], u) ensures Other(s.edges[k], u) < |s.nodes| {
      assert EdgeOk(s, s.edges[k]);
    }
  }

  /** Whether matrix entry (p, q) belongs to the first `n` entries of row `i`. */
  predicate InRow(flipped: bool, i: nat, n: nat, p: nat, q: nat) {
    if flipped then q == i && p < n else p == i && q < n
  }

  ghost predicate RowAdded(before: seq<seq<int>>, after: seq<seq<int>>, side: nat, flipped: bool,
                           i: nat, row: seq<MinArg>, n: nat)
    requires n <= |row|
  {
    && Square(before, side) && Square(after, side)
    && forall p: nat, q: nat {:trigger after[p][q]} :: p < side && q < side ==>
         after[p][q] == if InRow(flipped, i, n, p, q)
                        then Add(before[p][q], row[if flipped then p else q].value)
                        else before[p][q]
  }

  lemma RowAddedStep(before: seq<seq<int>>, cost: seq<seq<int>>, side: nat, flipped: bool,
                     i: nat, row: seq<MinArg>, j: nat, sum: int)
    requires j < |row| <= side && i < side
    requires RowAdded(before, cost, side, flipped, i, row, j)
    requires var p, q := if flipped then j else i, if flipped then i else j;
             sum == Add(cost[p][q], row[j].value)
    ensures var p, q := if flipped then j else i, if flipped then i else j;
            RowAdded(before, cost[p := cost[p][q := sum]], side, flipped, i, row, j + 1)
  {
    var p, q := if flipped then j else i, if flipped then i else j;
    assert cost[p][q] == before[p][q];
  }

  /** Rows up to `n` have been added. */
  ghost predicate RowsAdded(before: seq<seq<int>>, after: seq<seq<int>>, side: nat, flipped: bool,
                            results: seq<MinArg>, columns: nat, n: nat)
  {
    && Square(before, side) && Square(after, side)
    && forall p: nat, q: nat {:trigger after[p][q]} :: p < side && q < side ==>
         var i, j := if flipped then q else p, if flipped then p else q;
         after[p][q] == if i < n && j < columns then Add(before[p][q], Slot(results, i, j, columns).value)
                        else before[p][q]
  }

  lemma RowsAddedStep(start: seq<seq<int>>, before: seq<seq<int>>, after: seq<seq<int>>, side: nat,
                      flipped: bool, results: seq<MinArg>, i: nat, columns: nat)
    requires Offset(i + 1, columns) <= |results|
    requires RowsAdded(start, before, side, flipped, results, columns, i)
    requires RowAdded(before, after, side, flipped, i,
                      results[Offset(i, columns)..Offset(i + 1, columns)], columns)
    ensures RowsAdded(start, after, side, flipped, results, columns, i + 1)
  {
    forall p: nat, q: nat | p < side && q < side
      ensures var i', j := if flipped then q else p, if flipped then p else q;
              after[p][q] == if i' < i + 1 && j < columns
                             then Add(start[p][q], Slot(results, i', j, columns).value)
                             else start[p][q]
    {
      assert before[p][q] == before[p][q];
      assert after[p][q] == after[p][q];
    }
  }

  /** `row` holds the minima for value `i` of the first neighbour. */
  ghost predicate R2RowOk(s: State, u: nat, k: nat, l: nat, i: nat, row: seq<MinArg>, n: nat) {
    |row| == n && forall j: nat :: j < n ==> row[j] == R2Min(s, u, k, l, i, j)
  }

  /** The views ask for the minima of the merge. */
  ghost predicate Poses(s: State, u: nat, k: nat, l: nat, own: seq<int>, first: seq<seq<int>>,
                        second: seq<seq<int>>)
  {
    && Rectangular(first, |own|) && Rectangular(second, |own|)
    && forall i: nat :: i < |first| ==>
         R2RowOk(s, u, k, l, i, RowArgMins(own, first[i], second), |second|)
  }

  lemma ViewsPose(s: State, u: nat, k: nat, l: nat, m: nat, n: nat)
    requires u < |s.nodes| && k < |s.edges| && l < |s.edges|
    ensures var own := s.nodes[u].unary;
            Poses(s, u, k, l, own, Views(s.edges[k], u, m, |own|), Views(s.edges[l], u, n, |own|))
  {
    var own := s.nodes[u].unary;
    var second := Views(s.edges[l], u, n, |own|);
    forall i: nat | i < m
      ensures R2RowOk(s, u, k, l, i, RowArgMins(own, View(s.edges[k], u, i, |own|), second), n)
    {
      var row := RowArgMins(own, View(s.edges[k], u, i, |own|), second);
      forall j: nat | j < n ensures row[j] == R2Min(s, u, k, l, i, j) {
        R2RowIsSum(s, u, k, l, i, j);
      }
    }
  }

  lemma ChoicesAppend(left: seq<MinArg>, right: seq<MinArg>)
    ensures Choices(left + right) == Choices(left) + Choices(right)
  {
  }

  lemma {:induction false} ChoicesAreTable(s: State, u: nat, k: nat, l: nat, own: seq<int>,
                                           first: seq<seq<int>>, second: seq<seq<int>>, rows: nat)
    requires rows <= |first| && Poses(s, u, k, l, own, first, second)
    ensures Choices(PairArgMins(own, first, second, rows)) == R2Table(s, u, k, l, rows, |second|)
  {
    if rows > 0 {
      ChoicesAreTable(s, u, k, l, own, first, second, rows - 1);
      var row := RowArgMins(own, first[rows - 1], second);
      assert R2RowOk(s, u, k, l, rows - 1, row, |second|);
      ChoicesAppend(PairArgMins(own, first, second, rows - 1), row);
    }
  }

  /** The minimum for a pair of views sits at its row-major slot. */
  lemma {:induction false} PairArgMinsAt(own: seq<int>, first: seq<seq<int>>, second: seq<seq<int>>,
                                         rows: nat, i: nat, j: nat)
    requires Rectangular(first, |own|) && Rectangular(second, |own|)
    requires i < rows <= |first| && j < |second|
    ensures Slot(PairArgMins(own, first, second, rows), i, j, |second|)
            == RowArgMins(own, first[i], second)[j]
  {
    var before, row := PairArgMins(own, first, second, rows - 1), RowArgMins(own, first[rows - 1], second);
    PairArgMinsLength(own, first, second, rows - 1);
    SlotAppend(before, row, i, j, rows - 1, |second|);
    if i < rows - 1 {
      PairArgMinsAt(own, first, second, rows - 1, i, j);
    }
  }

  lemma SlotAppend(before: seq<MinArg>, row: seq<MinArg>, i: nat, j: nat, rows: nat, n: nat)
    requires |before| == Offset(rows, n) && |row| == n && i <= rows && j < n
    ensures Slot(before + row, i, j, n) == if i < rows then Slot(before, i, j, n) else row[j]
  {
    if i < rows {
      SlotInRange(i, j, rows, n);
    }
  }

  lemma {:induction false} PairArgMinsLength(own: seq<int>, first: seq<seq<int>>,
                                             second: seq<seq<int>>, rows: nat)
    requires rows <= |first| && Rectangular(first, |own|) && Rectangular(second, |own|)
    ensures |PairArgMins(own, first, second, rows)| == Offset(rows, |second|)
  {
    if rows > 0 {
      PairArgMinsLength(own, first, second, rows - 1);
    }
  }

  /** Adding all minima in place gives the merged matrix. */
  lemma MergedFromRows(s: State, u: nat, k: nat, l: nat, f: nat, own: seq<int>,
                       first: seq<seq<int>>, second: seq<seq<int>>, after: seq<seq<int>>)
    requires GraphOk(s) && Fork(s, u, k, l, f)
    requires s.edges[f].first < |s.nodes| && s.edges[f].second < |s.nodes|
    requires Other(s.edges[k], u) < |s.nodes| && Other(s.edges[l], u) < |s.nodes|
    requires |first| == s.nodes[Other(s.edges[k], u)].domain
    requires |second| == s.nodes[Other(s.edges[l], u)].domain
    requires Poses(s, u, k, l, own, first, second)
    requires RowsAdded(s.edges[f].cost, after, s.stride, s.edges[f].first != Other(s.edges[k], u),
                       PairArgMins(own, first, second, |first|), |second|, |first|)
    ensures s.edges[f].(cost := after) == MergedEdge(s, u, k, l, f)
  {
    ForkApart(s, u, k, l, f);
    var merged := MergedEdge(s, u, k, l, f).cost;
    assert EdgeOk(s, s.edges[f]);
    forall p: nat | p < s.stride ensures after[p] == merged[p] {
      forall q: nat | q < s.stride ensures after[p][q] == merged[p][q] {
        MergedEntryMatches(s, u, k, l, f, own, first, second, after, p, q);
      }
    }
    assert after == merged;
  }

  lemma MergedEntryMatches(s: State, u: nat, k: nat, l: nat, f: nat, own: seq<int>,
                           first: seq<seq<int>>, second: seq<seq<int>>, after: seq<seq<int>>,
                           p: nat, q: nat)
    requires GraphOk(s) && Fork(s, u, k, l, f) && p < s.stride && q < s.stride
    requires s.edges[f].first < |s.nodes| && s.edges[f].second < |s.nodes|
    requires Other(s.edges[k], u) < |s.nodes| && Other(s.edges[l], u) < |s.nodes|
    requires |first| == s.nodes[Other(s.edges[k], u)].domain
    requires |second| == s.nodes[Other(s.edges[l], u)].domain
    requires Poses(s, u, k, l, own, first, second)
    requires RowsAdded(s.edges[f].cost, after, s.stride, s.edges[f].first != Other(s.edges[k], u),
                       PairArgMins(own, first, second, |first|), |second|, |first|)
    ensures after[p][q] == MergedEdge(s, u, k, l, f).cost[p][q]
  {
    ForkApart(s, u, k, l, f);
    var e := s.edges[f];
    assert EdgeOk(s, e);
    var flipped := e.first != Other(s.edges[k], u);
    var i, j := if flipped then q else p, if flipped then p else q;
    if i < |first| && j < |second| {
      PairArgMinsAt(own, first, second, |first|, i, j);
      assert R2RowOk(s, u, k, l, i, RowArgMins(own, first[i], second), |second|);
    }
    assert after[p][q] == after[p][q];
  }

  /** On an in-range graph no kernel refuses an addition of a reduction. */
  lemma GoodAccepted1(s: State, u: nat, k: nat)
    requires Good(s) && u < |s.nodes| && s.nodes[u].active
    requires k < |s.edges| && Touches(s.edges[k], u) && Other(s.edges[k], u) < |s.nodes|
    ensures R1Accepted(s, u, k)
  {
    var w :| Fits(s, w);
    var n := |s.nodes[u].unary|;
    forall j: nat | j < s.nodes[Other(s.edges[k], u)].domain
      ensures Accepted2(s.nodes[u].unary, View(s.edges[k], u, j, n))
    {
      forall v | 0 <= v < n
        ensures AddChecked(s.nodes[u].unary[v], View(s.edges[k], u, j, n)[v]).Sum?
      {
        R1EntryExact(s, w, u, k, j, v);
      }
    }
  }

  lemma GoodAccepted2(s: State, u: nat, k: nat, l: nat)
    requires Good(s) && u < |s.nodes| && s.nodes[u].active
    requires k < |s.edges| && l < |s.edges| && k != l
    requires Touches(s.edges[k], u) && Touches(s.edges[l], u)
    requires Other(s.edges[k], u) < |s.nodes| && Other(s.edges[l], u) < |s.nodes|
    ensures R2Accepted(s, u, k, l)
  {
    var w :| Fits(s, w);
    var own := s.nodes[u].unary;
    var columns := s.nodes[Other(s.edges[l], u)].domain;
    forall i: nat | i < s.nodes[Other(s.edges[k], u)].domain
      ensures RowsAccepted3(own, View(s.edges[k], u, i, |own|), Views(s.edges[l], u, columns, |own|))
    {
      forall j: nat | j < columns
        ensures Accepted3(own, View(s.edges[k], u, i, |own|), View(s.edges[l], u, j, |own|))
      {
        PairFits(s, w, u, k, l, i, j);
      }
    }
  }

  lemma PairFits(s: State, w: Budget, u: nat, k: nat, l: nat, i: nat, j: nat)
    requires GraphOk(s) && Fits(s, w) && u < |s.nodes| && s.nodes[u].active
    requires k < |s.edges| && l < |s.edges| && k != l
    requires Touches(s.edges[k], u) && Touches(s.edges[l], u)
    requires Other(s.edges[k], u) < |s.nodes| && i < s.nodes[Other(s.edges[k], u)].domain
    requires Other(s.edges[l], u) < |s.nodes| && j < s.nodes[Other(s.edges[l], u)].domain
    ensures var own := s.nodes[u].unary;
            Accepted3(own, View(s.edges[k], u, i, |own|), View(s.edges[l], u, j, |own|))
  {
    forall v | 0 <= v < s.nodes[u].domain
      ensures var first, second, third :=
                s.nodes[u].unary[v], CostAt(s.edges[k], u, v, i), CostAt(s.edges[l], u, v, j);
              AddChecked(first, second).Sum? && AddChecked(Add(first, second), third).Sum?
    {
      R2EntryExact(s, w, u, k, l, i, j, v);
    }
  }

  lemma R1FromMins(s: State, u: nat, k: nat, w: nat)
    requires u < |s.nodes| && k < |s.edges| && w < |s.nodes|
    ensures var own, unary := s.nodes[u].unary, s.nodes[w].unary;
            var mins := RowArgMins2(own, Views(s.edges[k], u, |unary|, |own|));
            WithMinima(unary, mins) == R1Unary(s, u, k, unary) && Choices(mins) == R1Table(s, u, k, |unary|)
  {
    var own, unary := s.nodes[u].unary, s.nodes[w].unary;
    var mins := RowArgMins2(own, Views(s.edges[k], u, |unary|, |own|));
    forall j: nat | j < |unary| ensures mins[j] == R1Min(s, u, k, j) {
      R1RowIsSum(s, u, k, j);
    }
    assert WithMinima(unary, mins) == R1Unary(s, u, k, unary);
    assert Choices(mins) == R1Table(s, u, k, |unary|);
  }

  class Problem {
    const nodeCapacity: nat
    const domainCapacity: nat
    var nodes: seq<Node>
    var edges: seq<Edge>
    var edgeCount: nat
    var offset: int
    var order: seq<nat>

    function Graph(): State
      reads this
    {
      State(domainCapacity, nodes, edges, edgeCount, offset, order)
    }

    /** Room for so many nodes, edges and values; nothing in it yet. */
    constructor Empty(nodeCapacity: nat, edgeCapacity: nat, domainCapacity: nat)
      ensures this.nodeCapacity == nodeCapacity && this.domainCapacity == domainCapacity
      ensures nodes == [] && edgeCount == 0 && offset == 0 && order == [] && |edges| == edgeCapacity
      ensures forall k :: 0 <= k < |edges| ==> edges[k] == Edge(false, 0, 0, Zeros(domainCapacity))
    {
      this.nodeCapacity := nodeCapacity;
      this.domainCapacity := domainCapacity;
      nodes := [];
      edges := seq(edgeCapacity, k => Edge(false, 0, 0, Zeros(domainCapacity)));
      edgeCount := 0;
      offset := 0;
      order := [];
    }

    /** Copies `source` (pbqp_problem_clone). */
    constructor Clone(source: Problem)
      ensures Graph() == source.Graph() && nodeCapacity == source.nodeCapacity
    {
      nodeCapacity := source.nodeCapacity;
      domainCapacity := source.domainCapacity;
      nodes := source.nodes;
      edges := source.edges;
      edgeCount := source.edgeCount;
      offset := source.offset;
      order := source.order;
    }

    // ------------------------------------------------------------- queries

    method FindEdge(a: nat, b: nat) returns (slot: Option<nat>)
      ensures slot == FirstJoin(edges, a, b, 0)
    {
      for k := 0 to |edges|
        invariant FirstJoin(edges, a, b, 0) == FirstJoin(edges, a, b, k)
      {
        if Joins(edges[k], a, b) {
          return Some(k);
        }
      }
      slot := None;
    }

    method NeighborCount(u: nat) returns (count: nat, first: nat, second: nat)
      ensures var incident := Incident(Graph(), u);
              && count == |incident|
              && (count > 0 ==> first == incident[0])
              && (count > 1 ==> second == incident[1])
    {
      count, first, second := 0, 0, 0;
      for k := 0 to |edges|
        invariant count == |IncidentTo(edges, u, k)|
        invariant count > 0 ==> first == IncidentTo(edges, u, k)[0]
        invariant count > 1 ==> second == IncidentTo(edges, u, k)[1]
      {
        if Touches(edges[k], u) {
          if count == 0 {
            first := k;
          } else if count == 1 {
            second := k;
          }
          count := count + 1;
        }
      }
    }

    method FindReducibleNode() returns (u: Option<nat>)
      ensures u == FirstReducible(Graph(), 0)
    {
      ghost var g := Graph();
      for i := 0 to |nodes|
        invariant FirstReducible(g, 0) == FirstReducible(g, i)
      {
        if nodes[i].active {
          var degree, _, _ := NeighborCount(i);
          if degree <= 2 {
            return Some(i);
          }
        }
      }
      u := None;
    }

    method ActiveNodeCount() returns (count: nat)
      ensures count == ActiveNodes(Graph())
    {
      count := 0;
      ghost var flags := ActiveFlags(nodes);
      for i := 0 to |nodes|
        invariant count == Total(flags[..i])
      {
        assert flags[..i + 1][..i] == flags[..i];
        if nodes[i].active {
          count := count + 1;
        }
      }
      assert flags[..|nodes|] == flags;
    }

    method NeighborDomains(u: nat) returns (work: nat)
      requires GraphOk(Graph())
      ensures work == Search.NeighborWork(Graph(), u, |edges|)
    {
      ghost var g := Graph();
      work := 0;
      for k := 0 to |edges|
        invariant work == Search.NeighborWork(g, u, k)
      {
        if Touches(edges[k], u) {
          assert EdgeOk(g, edges[k]);
          work := work + nodes[Other(edges[k], u)].domain;
        }
      }
    }

    /** The branch or RN node: the first most preferred active node under the policy. */
    method SelectRnNode(policy: Search.Policy) returns (selected: Option<nat>)
      requires GraphOk(Graph())
      ensures selected == Search.Select(Graph(), policy)
    {
      ghost var g := Graph();
      selected := None;
      var selectedDegree, selectedWork := 0, 0;
      for u := 0 to |nodes|
        invariant selected == Search.SelectTo(g, policy, u)
        invariant selected.Some? ==> selectedDegree == Search.Degree(g, selected.value)
        invariant selected.Some? && policy == Search.MinWork ==>
                    selectedWork == Search.Work(g, selected.value)
      {
        if nodes[u].active {
          var degree, _, _ := NeighborCount(u);
          var work := 0;
          if policy == Search.MinWork {
            var domains := NeighborDomains(u);
            work := domains * nodes[u].domain;
          }
          if selected.None?
             || (policy == Search.MinDegree
                 && (degree < selectedDegree || (degree == selectedDegree && u < selected.value)))
             || (policy == Search.MaxDegree
                 && (degree > selectedDegree || (degree == selectedDegree && u < selected.value)))
             || (policy == Search.MinWork
                 && (work < selectedWork
                     || (work == selectedWork
                         && (degree < selectedDegree
                             || (degree == selectedDegree && u < selected.value)))))
          {
            selected, selectedDegree, selectedWork := Some(u), degree, work;
          }
        }
      }
    }

    /** Claims the first free slot for a zero matrix. */
    method AddFillEdge(a: nat, b: nat) returns (slot: Option<nat>)
      modifies this`edges, this`edgeCount
      ensures slot == FirstFree(old(edges), 0)
      ensures slot.None? ==> Graph() == old(Graph())
      ensures slot.Some? ==> Graph() == WithFill(old(Graph()), slot.value, a, b)
    {
      for k := 0 to |edges|
        invariant edges == old(edges) && edgeCount == old(edgeCount)
        invariant FirstFree(edges, 0) == FirstFree(edges, k)
      {
        if !edges[k].active {
          edges := edges[k := Edge(true, a, b, Zeros(domainCapacity))];
          edgeCount := edgeCount + 1;
          return Some(k);
        }
      }
      slot := None;
    }

    // ---------------------------------------------------------- reductions

    method ReduceR0(u: nat) returns (status: Status)
      requires u < |nodes|
      modifies this
      ensures status == Status.Ok && Graph() == Reductions.ReduceR0(old(Graph()), u)
    {
      var unary := nodes[u].unary;
      var best, choice := INF, 0;
      for v := 0 to |unary|
        invariant Graph() == old(Graph())
        invariant MinArg(best, choice) == FirstMin(unary[..v])
      {
        FirstMinStep(unary, v, MinArg(best, choice));
        if v == 0 || unary[v] < best {
          best, choice := unary[v], v;
        }
      }
      assert unary[..|unary|] == unary;
      offset := Add(offset, best);
      nodes := nodes[u := nodes[u].(active := false, kind := R0, table := [choice])];
      order := order + [u];
      status := Status.Ok;
    }

    /** Adds the minima to the unary vector of `w` in place and lists the choices. */
    method AddMinima(w: nat, results: seq<MinArg>) returns (table: seq<nat>)
      requires w < |nodes| && |nodes[w].unary| == |results|
      modifies this`nodes
      ensures nodes == old(nodes)[w := old(nodes[w]).(unary := WithMinima(old(nodes[w].unary), results))]
      ensures table == Choices(results)
    {
      table := [];
      ghost var merged := WithMinima(nodes[w].unary, results);
      for j := 0 to |results|
        invariant |nodes| == |old(nodes)| && |nodes[w].unary| == |results|
        invariant nodes == old(nodes)[w := old(nodes[w]).(unary := nodes[w].unary)]
        invariant nodes[w].unary == merged[..j] + old(nodes[w].unary)[j..]
        invariant table == Choices(results)[..j]
      {
        PrefixStep(merged, old(nodes[w].unary), j);
        var sum := Add(nodes[w].unary[j], results[j].value);
        nodes := nodes[w := nodes[w].(unary := nodes[w].unary[j := sum])];
        table := table + [results[j].index];
      }
      assert nodes[w].unary == merged;
    }

    method ReduceR1(u: nat, k: nat) returns (status: Status)
      requires u < |nodes| && k < |edges| && Other(edges[k], u) < |nodes| && Other(edges[k], u) != u
      requires |nodes[Other(edges[k], u)].unary| == nodes[Other(edges[k], u)].domain
      modifies this
      ensures status == Status.Ok || status == Status.KernelError
      ensures status == Status.Ok <==> R1Accepted(old(Graph()), u, k)
      ensures status == Status.Ok ==> Graph() == Reductions.ReduceR1(old(Graph()), u, k)
      ensures status == Status.KernelError ==> Graph() == old(Graph())
    {
      ghost var g := Graph();
      var w := Other(edges[k], u);
      var unary := nodes[u].unary;
      var ok, results := Min2Batch(unary, Views(edges[k], u, nodes[w].domain, |unary|));
      if !ok {
        return Status.KernelError;
      }
      R1FromMins(g, u, k, w);
      var table := AddMinima(w, results);
      edges := edges[k := edges[k].(active := false)];
      edgeCount := if edgeCount > 0 then edgeCount - 1 else 0;
      nodes := nodes[u := nodes[u].(first := w, kind := R1, active := false, table := table)];
      order := order + [u];
      status := Status.Ok;
    }

    /** Adds one row of minima to the fill matrix in place: row `i` of the first neighbour's
        values, stored as a row or, when the fill edge is the other way round, as a column. */
    method AddRow(f: nat, flipped: bool, i: nat, row: seq<MinArg>) returns (table: seq<nat>)
      requires f < |edges| && Square(edges[f].cost, domainCapacity)
      requires i < domainCapacity && |row| <= domainCapacity
      modifies this`edges
      ensures |edges| == |old(edges)|
      ensures edges == old(edges)[f := old(edges[f]).(cost := edges[f].cost)]
      ensures RowAdded(old(edges[f].cost), edges[f].cost, domainCapacity, flipped, i, row, |row|)
      ensures table == Choices(row)
    {
      table := [];
      for j := 0 to |row|
        invariant |edges| == |old(edges)|
        invariant edges == old(edges)[f := old(edges[f]).(cost := edges[f].cost)]
        invariant RowAdded(old(edges[f].cost), edges[f].cost, domainCapacity, flipped, i, row, j)
        invariant table == Choices(row)[..j]
      {
        var p, q := if flipped then j else i, if flipped then i else j;
        var cost := edges[f].cost;
        var sum := Add(cost[p][q], row[j].value);
        RowAddedStep(old(edges[f].cost), cost, domainCapacity, flipped, i, row, j, sum);
        edges := edges[f := edges[f].(cost := cost[p := cost[p][q := sum]])];
        table := table + [row[j].index];
      }
    }

    /** Adds all minima, taken in row-major order, and lists the choices. */
    method AddRows(f: nat, flipped: bool, results: seq<MinArg>, rows: nat, columns: nat)
      returns (table: seq<nat>)
      requires f < |edges| && Square(edges[f].cost, domainCapacity)
      requires rows <= domainCapacity && columns <= domainCapacity && |results| == Offset(rows, columns)
      modifies this`edges
      ensures |edges| == |old(edges)|
      ensures edges == old(edges)[f := old(edges[f]).(cost := edges[f].cost)]
      ensures RowsAdded(old(edges[f].cost), edges[f].cost, domainCapacity, flipped, results, columns, rows)
      ensures table == Choices(results)
    {
      table := [];
      var done := 0;
      for i := 0 to rows
        invariant |edges| == |old(edges)|
        invariant edges == old(edges)[f := old(edges[f]).(cost := edges[f].cost)]
        invariant RowsAdded(old(edges[f].cost), edges[f].cost, domainCapacity, flipped, results, columns, i)
        invariant done == Offset(i, columns) && done <= |results|
        invariant table == Choices(results)[..done]
      {
        ghost var before := edges[f].cost;
        OffsetMonotone(i + 1, rows, columns);
        var choices := AddRow(f, flipped, i, results[done..done + columns]);
        RowsAddedStep(old(edges[f].cost), before, edges[f].cost, domainCapacity, flipped, results, i, columns);
        table := table + choices;
        done := done + columns;
      }
    }

    /** The edge joining the pair, or a new zero edge. */
    method ClaimFill(a: nat, b: nat) returns (slot: Option<nat>)
      modifies this`edges, this`edgeCount
      ensures slot == FillSlot(old(Graph()), a, b)
      ensures slot.None? ==> Graph() == old(Graph())
      ensures slot.Some? ==> Graph() == WithFill(old(Graph()), slot.value, a, b)
    {
      slot := FindEdge(a, b);
      if slot.None? {
        slot := AddFillEdge(a, b);
      }
    }

    /** Computes all minima of a degree-two node and adds them to fill edge `f` in place. */
    method MergeFill(u: nat, k: nat, l: nat, f: nat, vectorPath: bool)
      returns (ok: bool, table: seq<nat>)
      requires GraphOk(Graph()) && Fork(Graph(), u, k, l, f)
      requires Other(edges[k], u) < |nodes| && Other(edges[l], u) < |nodes|
      requires edges[f].first < |nodes| && edges[f].second < |nodes|
      modifies this`edges
      ensures ok <==> R2Accepted(old(Graph()), u, k, l)
      ensures !ok ==> edges == old(edges)
      ensures ok ==> edges == old(edges)[f := MergedEdge(old(Graph()), u, k, l, f)]
      ensures ok ==> table == R2Table(old(Graph()), u, k, l, nodes[Other(old(edges[k]), u)].domain,
                                      nodes[Other(old(edges[l]), u)].domain)
    {
      ghost var g := Graph();
      ForkApart(g, u, k, l, f);
      var a, b := Other(edges[k], u), Other(edges[l], u);
      assert EdgeOk(g, edges[f]);
      var unary := nodes[u].unary;
      var m, n := nodes[a].domain, nodes[b].domain;
      var first, second := Views(edges[k], u, m, |unary|), Views(edges[l], u, n, |unary|);
      var results;
      if vectorPath {
        ok, results := Map3ProjectBatch(unary, first, second);
      } else {
        ok, results := Min3Pairs(unary, first, second);
      }
      if !ok {
        return false, [];
      }
      ViewsPose(g, u, k, l, m, n);
      PairArgMinsLength(unary, first, second, m);
      ChoicesAreTable(g, u, k, l, unary, first, second, m);
      table := AddRows(f, edges[f].first != a, results, m, n);
      MergedFromRows(g, u, k, l, f, unary, first, second, edges[f].cost);
    }

    method ReduceR2(u: nat, k: nat, l: nat, vectorPath: bool) returns (status: Status)
      requires WF(Graph()) && u < |nodes| && nodes[u].active && Incident(Graph(), u) == [k, l]
      requires k < |edges| && l < |edges| && Other(edges[k], u) < |nodes| && Other(edges[l], u) < |nodes|
      modifies this
      ensures status in {Status.Ok, Status.CapacityError, Status.KernelError}
      ensures status == Status.CapacityError <==> ReductionTwo.ReduceR2(old(Graph()), u, k, l).None?
      ensures status == Status.CapacityError ==> Graph() == old(Graph())
      ensures status == Status.KernelError <==>
                ReductionTwo.ReduceR2(old(Graph()), u, k, l).Some? && !R2Accepted(old(Graph()), u, k, l)
      ensures status == Status.Ok ==> Some(Graph()) == ReductionTwo.ReduceR2(old(Graph()), u, k, l)
    {
      ghost var g := Graph();
      var a, b := Other(edges[k], u), Other(edges[l], u);
      var slot := ClaimFill(a, b);
      if slot.None? {
        return Status.CapacityError;
      }
      var f := slot.value;
      ghost var filled := Graph();
      FillKeeps(g, u, k, l, f);
      ForkApart(filled, u, k, l, f);
      var ok, table := MergeFill(u, k, l, f, vectorPath);
      if !ok {
        return Status.KernelError;
      }
      edges := edges[k := edges[k].(active := false)][l := edges[l].(active := false)];
      edgeCount := if edgeCount >= 2 then edgeCount - 2 else 0;
      nodes := nodes[u := nodes[u].(first := a, second := b, kind := R2, active := false,
                                    table := table)];
      order := order + [u];
      status := Status.Ok;
    }

    /** Adds the slice of edge `k` for value `c` of `u` to the neighbour, in place. */
    method AddSlice(u: nat, c: nat, k: nat)
      requires k < |edges| && Other(edges[k], u) < |nodes|
      modifies this`nodes
      ensures var n := Other(edges[k], u);
              nodes == old(nodes)[n := old(nodes[n]).(unary := Sliced(old(nodes[n].unary), edges[k], u, c))]
    {
      var n := Other(edges[k], u);
      ghost var sum := Sliced(nodes[n].unary, edges[k], u, c);
      for j := 0 to |nodes[n].unary|
        invariant |nodes| == |old(nodes)| && |nodes[n].unary| == |sum|
        invariant nodes == old(nodes)[n := old(nodes[n]).(unary := nodes[n].unary)]
        invariant nodes[n].unary == sum[..j] + old(nodes[n].unary)[j..]
      {
        PrefixStep(sum, old(nodes[n].unary), j);
        var value := Add(nodes[n].unary[j], CostAt(edges[k], u, c, j));
        nodes := nodes[n := nodes[n].(unary := nodes[n].unary[j := value])];
      }
      assert nodes[n].unary == sum;
    }

    /** Folds edge `k` into the neighbour if it leaves from `u`. */
    method ConditionEdge(u: nat, choice: nat, k: nat)
      requires k < |edges| && (Touches(edges[k], u) ==> Other(edges[k], u) < |nodes|)
      modifies this`nodes, this`edges, this`edgeCount
      ensures |edges| == |old(edges)|
      ensures Graph() == CondEdge(old(Graph()), u, choice, k)
    {
      if Touches(edges[k], u) {
        AddSlice(u, choice, k);
        edges := edges[k := edges[k].(active := false)];
        edgeCount := if edgeCount > 0 then edgeCount - 1 else 0;
      }
    }

    method ConditionNode(u: nat, choice: nat, kind: Kind) returns (status: Status)
      requires GraphOk(Graph())
      modifies this
      ensures status in {Status.Ok, Status.ArgumentError}
      ensures status == Status.Ok <==>
                old(u < |nodes| && nodes[u].active && choice < nodes[u].domain)
      ensures status == Status.ArgumentError ==> Graph() == old(Graph())
      ensures status == Status.Ok ==> Graph() == Condition(old(Graph()), u, choice, kind)
    {
      if u >= |nodes| || !nodes[u].active || choice >= nodes[u].domain {
        return Status.ArgumentError;
      }
      ghost var g := Graph();
      offset := Add(offset, nodes[u].unary[choice]);
      for k := 0 to |edges|
        invariant |edges| == |g.edges|
        invariant Graph() == CondEdges(g, u, choice, k).(offset := offset)
        invariant offset == Add(g.offset, g.nodes[u].unary[choice]) && order == g.order
      {
        ghost var t := CondEdges(g, u, choice, k);
        CondEdgesKeep(g, u, choice, k);
        assert EdgeOk(t, t.edges[k]);
        ConditionEdge(u, choice, k);
      }
      CondEdgesKeep(g, u, choice, |edges|);
      nodes := nodes[u := nodes[u].(table := [choice], kind := kind, active := false)];
      order := order + [u];
      status := Status.Ok;
    }

    /** Fixes `u` to its best score. All ways of batching give the same scores; the vector path
        also refuses a score that leaves the cost range. */
    method ReduceRN(u: nat, vectorKernels: bool, perNode: bool) returns (status: Status)
      requires GraphOk(Graph()) && u < |nodes| && nodes[u].active
      modifies this
      ensures status in {Status.Ok, Status.KernelError}
      ensures Safe(old(Graph())) && WF(old(Graph())) ==> status == Status.Ok
      ensures status == Status.KernelError ==> Graph() == old(Graph())
      ensures status == Status.Ok ==>
                && RnChoice(old(Graph()), u) < old(nodes[u].domain)
                && Graph() == Condition(old(Graph()), u, RnChoice(old(Graph()), u), RN)
    {
      var g := Graph();
      EdgesLinked(g, u);
      if Safe(g) && WF(g) {
        ScoringAccepted(g, u);
      }
      var ok, scores;
      if perNode && vectorKernels {
        ok, scores := ScoreVector(g, u);
      } else if perNode {
        ok, scores := ScorePerNode(g, u);
      } else {
        ok, scores := ScorePerEdge(g, u);
      }
      if !ok {
        return Status.KernelError;
      }
      var choice := FirstCheapest(scores);
      status := ConditionNode(u, choice, RN);
    }

    /** R0, R1 or R2, by degree. */
    method ReduceNode(u: nat, vectorPath: bool) returns (status: Status)
      requires Good(Graph()) && u < |nodes| && nodes[u].active && |Incident(Graph(), u)| <= 2
      modifies this
      ensures status in {Status.Ok, Status.CapacityError}
      ensures status == Status.CapacityError ==> Graph() == old(Graph())
      ensures Runs.ReduceNode(old(Graph()), u)
              == if status == Status.Ok then Done(Graph()) else Full
    {
      ghost var g := Graph();
      IncidentEndpoints(g, u);
      var degree, first, second := NeighborCount(u);
      if degree == 0 {
        status := ReduceR0(u);
      } else if degree == 1 {
        GoodAccepted1(g, u, first);
        status := ReduceR1(u, first);
      } else {
        assert Incident(g, u) == [first, second];
        TwoIncident(g, u, first, second);
        GoodAccepted2(g, u, first, second);
        status := ReduceR2(u, first, second, vectorPath);
      }
    }
  }
}
