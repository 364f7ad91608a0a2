/** The exact relaxation of the Bellman-Ford oracle (probes/src/bellman_ford.cpp,
    probes/include/bellman_ford.h): negative cycles, exact distances, and the range of the
    64-bit values. */
module BellmanFord {
  import opened Basics
  import opened Costs

  datatype Edge = Edge(from: nat, to: nat, weight: int)

  datatype Distance = Unreached | Reached(value: int)

  /** Edges of infinite weight are absent. */
  predicate Usable(e: Edge) { e.weight != INF }

  ghost predicate InGraph(edges: seq<Edge>, n: nat) {
    forall k {:trigger edges[k]} :: 0 <= k < |edges| ==> edges[k].from < n && edges[k].to < n
  }

  // -------------------------------------------------------------------- walks

  /** The listed edges lead from `s` to `v`. */
  predicate IsWalk(edges: seq<Edge>, s: nat, w: seq<nat>, v: nat) {
    if |w| == 0 then v == s
    else
      var last := |w| - 1;
      && w[last] < |edges| && Usable(edges[w[last]]) && edges[w[last]].to == v
      && IsWalk(edges, s, w[..last], edges[w[last]].from)
  }

  function Weight(edges: seq<Edge>, w: seq<nat>): int {
    if |w| == 0 then 0
    else
      var last := |w| - 1;
      Weight(edges, w[..last]) + (if w[last] < |edges| then edges[w[last]].weight else 0)
  }

  lemma {:induction false} WalkJoin(edges: seq<Edge>, s: nat, a: seq<nat>, u: nat, b: seq<nat>, v: nat)
    requires IsWalk(edges, s, a, u) && IsWalk(edges, u, b, v)
    ensures IsWalk(edges, s, a + b, v)
    ensures Weight(edges, a + b) == Weight(edges, a) + Weight(edges, b)
    decreases |b|
  {
    if |b| == 0 {
      assert a + b == a;
    } else {
      var last := |b| - 1;
      WalkJoin(edges, s, a, u, b[..last], edges[b[last]].from);
      assert (a + b)[..|a + b| - 1] == a + b[..last];
    }
  }

  /** A walk cut at step `i`. */
  lemma {:induction false} WalkSplit(edges: seq<Edge>, s: nat, w: seq<nat>, v: nat, i: nat) returns (u: nat)
    requires IsWalk(edges, s, w, v) && i <= |w|
    ensures IsWalk(edges, s, w[..i], u) && IsWalk(edges, u, w[i..], v)
    ensures Weight(edges, w) == Weight(edges, w[..i]) + Weight(edges, w[i..])
    ensures u == Stop(edges, s, w, i)
    decreases |w|
  {
    if i == |w| {
      u := v;
      assert w[..i] == w && w[i..] == [];
    } else {
      var last := |w| - 1;
      u := WalkSplit(edges, s, w[..last], edges[w[last]].from, i);
      assert w[..last][..i] == w[..i] && w[..last][i..] == w[i..][..last - i];
      assert w[i..][last - i] == w[last];
    }
  }

  /** The vertex after `i` steps. */
  function Stop(edges: seq<Edge>, s: nat, w: seq<nat>, i: nat): nat
    requires i <= |w|
  {
    if i == 0 then s else if w[i - 1] < |edges| then edges[w[i - 1]].to else 0
  }

  // ---------------------------------------------------------- negative cycles

  /** A cycle of negative weight that can be reached from the source. */
  ghost predicate CycleAt(edges: seq<Edge>, s: nat, u: nat, p: seq<nat>, c: seq<nat>) {
    IsWalk(edges, s, p, u) && IsWalk(edges, u, c, u) && Weight(edges, c) < 0
  }

  ghost predicate NegativeCycle(edges: seq<Edge>, s: nat) {
    exists u: nat, p: seq<nat>, c: seq<nat> :: CycleAt(edges, s, u, p, c)
  }

  /** Among more than `n` numbers below `n`, two are equal. */
  lemma {:induction false} Pigeonhole(s: seq<nat>, n: nat) returns (i: nat, j: nat)
    requires |s| > n && forall k :: 0 <= k < |s| ==> s[k] < n
    ensures i < j < |s| && s[i] == s[j]
    decreases n
  {
    assert s[0] < n;
    if k: nat :| k < |s| && s[k] == n - 1 {
      if l: nat :| l < |s| && l != k && s[l] == n - 1 {
        i, j := if k < l then k else l, if k < l then l else k;
      } else {
        var t: seq<nat> := s[..k] + s[k + 1..];
        forall x | 0 <= x < |t| ensures t[x] < n - 1 {
          assert t[x] == s[if x < k then x else x + 1];
        }
        i, j := Pigeonhole(t, n - 1);
        i, j := if i < k then i else i + 1, if j < k then j else j + 1;
      }
    } else {
      forall x | 0 <= x < |s| ensures s[x] < n - 1 {
        assert s[x] != n - 1;
      }
      i, j := Pigeonhole(s, n - 1);
    }
  }

  lemma StopBound(edges: seq<Edge>, n: nat, s: nat, w: seq<nat>, i: nat)
    requires InGraph(edges, n) && s < n && i <= |w|
    ensures Stop(edges, s, w, i) < n
  {
  }

  function Stops(edges: seq<Edge>, s: nat, w: seq<nat>): (stops: seq<nat>)
    ensures |stops| == |w| + 1
    ensures forall i {:trigger stops[i]} :: 0 <= i <= |w| ==> stops[i] == Stop(edges, s, w, i)
  {
    seq(|w| + 1, i requires 0 <= i <= |w| => Stop(edges, s, w, i))
  }

  lemma CycleNotNegative(edges: seq<Edge>, s: nat, u: nat, p: seq<nat>, c: seq<nat>)
    requires IsWalk(edges, s, p, u) && IsWalk(edges, u, c, u) && !NegativeCycle(edges, s)
    ensures Weight(edges, c) >= 0
  {
    assert !CycleAt(edges, s, u, p, c);
  }

  /** A walk that visits some vertex twice: the cycle between the visits is negative, or leaving it
      out is no worse. */
  lemma CutCycle(edges: seq<Edge>, s: nat, w: seq<nat>, v: nat, i: nat, j: nat) returns (cut: seq<nat>)
    requires IsWalk(edges, s, w, v) && i < j <= |w| && Stop(edges, s, w, i) == Stop(edges, s, w, j)
    requires !NegativeCycle(edges, s)
    ensures IsWalk(edges, s, cut, v) && Weight(edges, cut) <= Weight(edges, w) && |cut| < |w|
  {
    var u := WalkSplit(edges, s, w, v, j);
    var u' := WalkSplit(edges, s, w[..j], u, i);
    assert w[..j][..i] == w[..i];
    assert Stop(edges, s, w[..j], i) == Stop(edges, s, w, i);
    var cycle := w[..j][i..];
    CycleNotNegative(edges, s, u, w[..i], cycle);
    cut := w[..i] + w[j..];
    WalkJoin(edges, s, w[..i], u, w[j..], v);
  }

  /** Without a negative cycle every walk can be shortened to fewer steps than there are vertices,
      at no cost. */
  lemma {:induction false} Shorten(edges: seq<Edge>, n: nat, s: nat, w: seq<nat>, v: nat) returns (short: seq<nat>)
    requires InGraph(edges, n) && s < n && IsWalk(edges, s, w, v) && !NegativeCycle(edges, s)
    ensures IsWalk(edges, s, short, v) && Weight(edges, short) <= Weight(edges, w) && |short| <= n - 1
    decreases |w|
  {
    if |w| <= n - 1 {
      short := w;
    } else {
      var stops := Stops(edges, s, w);
      forall k | 0 <= k < |stops| ensures stops[k] < n {
        StopBound(edges, n, s, w, k);
      }
      var i, j := Pigeonhole(stops, n);
      var cut := CutCycle(edges, s, w, v, i, j);
      short := Shorten(edges, n, s, cut, v);
    }
  }

  // --------------------------------------------------------------- relaxation

  predicate AtMost(a: Distance, b: Distance) { b.Unreached? || (a.Reached? && a.value <= b.value) }

  /** The distance through an edge. */
  function Through(d: Distance, e: Edge): Distance {
    if d.Unreached? || !Usable(e) then Unreached else Reached(d.value + e.weight)
  }

  predicate Better(d: Distance, than: Distance) {
    d.Reached? && (than.Unreached? || d.value < than.value)
  }

  /** Every recorded distance is the weight of a walk of at most `limit` edges. */
  ghost predicate Witnessed(edges: seq<Edge>, s: nat, d: seq<Distance>, via: seq<seq<nat>>, limit: nat) {
    && |via| == |d|
    && forall v {:trigger d[v]} :: 0 <= v < |d| && d[v].Reached? ==>
         IsWalk(edges, s, via[v], v) && Weight(edges, via[v]) == d[v].value && |via[v]| <= limit
  }

  /** No usable edge can improve a distance. */
  ghost predicate Settled(edges: seq<Edge>, d: seq<Distance>)
    requires InGraph(edges, |d|)
  {
    forall k {:trigger edges[k]} :: 0 <= k < |edges| ==>
      AtMost(d[edges[k].to], Through(d[edges[k].from], edges[k]))
  }

  /** No walk of at most `k` edges is shorter than the distance recorded for its end. */
  ghost predicate Covers(edges: seq<Edge>, s: nat, d: seq<Distance>, k: nat) {
    forall w, v: nat {:trigger IsWalk(edges, s, w, v)} ::
      IsWalk(edges, s, w, v) && |w| <= k && v < |d| ==> AtMost(d[v], Reached(Weight(edges, w)))
  }

  /** The table after relaxing edge `k`. */
  function Relaxed(edges: seq<Edge>, d: seq<Distance>, k: nat): (r: seq<Distance>)
    requires InGraph(edges, |d|) && k < |edges|
    ensures |r| == |d|
  {
    var e := edges[k];
    if Better(Through(d[e.from], e), d[e.to]) then d[e.to := Through(d[e.from], e)] else d
  }

  /** The table after the first `k` relaxations of a pass. */
  function PassTable(edges: seq<Edge>, d: seq<Distance>, k: nat): (r: seq<Distance>)
    requires InGraph(edges, |d|) && k <= |edges|
    ensures |r| == |d|
  {
    if k == 0 then d else Relaxed(edges, PassTable(edges, d, k - 1), k - 1)
  }

  /** The table after `round` whole passes. */
  function RoundTable(edges: seq<Edge>, d: seq<Distance>, round: nat): (r: seq<Distance>)
    requires InGraph(edges, |d|)
    ensures |r| == |d|
  {
    if round == 0 then d else PassTable(edges, RoundTable(edges, d, round - 1), |edges|)
  }

  /** Only the source is reached. */
  function StartOf(n: nat, s: nat): (d: seq<Distance>)
    ensures |d| == n
  {
    seq(n, v => if v == s then Reached(0) else Unreached)
  }

  /** The table when pass `round` of a run relaxes its `k`-th edge. */
  function TableAt(edges: seq<Edge>, n: nat, s: nat, round: nat, k: nat): (d: seq<Distance>)
    requires InGraph(edges, n) && k <= |edges|
    ensures |d| == n
  {
    PassTable(edges, RoundTable(edges, StartOf(n, s), round), k)
  }

  /** What one pass does: distances only fall, and each edge is used at least once on what was
      known before. */
  ghost predicate Passed(edges: seq<Edge>, before: seq<Distance>, after: seq<Distance>, done: nat)
    requires InGraph(edges, |before|) && done <= |edges|
  {
    && |after| == |before|
    && (forall v {:trigger after[v]} :: 0 <= v < |after| ==> AtMost(after[v], before[v]))
    && (forall k {:trigger edges[k]} :: 0 <= k < done ==>
          AtMost(after[edges[k].to], Through(before[edges[k].from], edges[k])))
  }

  lemma PassedCovers(edges: seq<Edge>, s: nat, before: seq<Distance>, after: seq<Distance>, k: nat)
    requires InGraph(edges, |before|) && s < |before|
    requires Covers(edges, s, before, k) && Passed(edges, before, after, |edges|)
    ensures Covers(edges, s, after, k + 1)
  {
    forall w, v: nat | IsWalk(edges, s, w, v) && |w| <= k + 1 && v < |after|
      ensures AtMost(after[v], Reached(Weight(edges, w)))
    {
      if |w| == 0 {
        assert AtMost(before[v], Reached(Weight(edges, w)));
        assert AtMost(after[v], before[v]);
      } else {
        var e := edges[w[|w| - 1]];
        assert IsWalk(edges, s, w[..|w| - 1], e.from);
        assert AtMost(before[e.from], Reached(Weight(edges, w[..|w| - 1])));
        assert AtMost(after[e.to], Through(before[e.from], e));
      }
    }
  }

  /** A settled table bounds every walk and rules out negative cycles. */
  lemma {:induction false} SettledBounds(edges: seq<Edge>, d: seq<Distance>, u: nat, w: seq<nat>, v: nat)
    requires InGraph(edges, |d|) && Settled(edges, d) && u < |d| && d[u].Reached? && IsWalk(edges, u, w, v)
    ensures v < |d| && AtMost(d[v], Reached(d[u].value + Weight(edges, w)))
    decreases |w|
  {
    if |w| > 0 {
      var e := edges[w[|w| - 1]];
      SettledBounds(edges, d, u, w[..|w| - 1], e.from);
      assert AtMost(d[e.to], Through(d[e.from], e));
    }
  }

  lemma SettledNoCycle(edges: seq<Edge>, s: nat, d: seq<Distance>)
    requires InGraph(edges, |d|) && Settled(edges, d) && s < |d| && d[s].Reached?
    ensures !NegativeCycle(edges, s)
  {
    if NegativeCycle(edges, s) {
      var u: nat, p: seq<nat>, c: seq<nat> :| CycleAt(edges, s, u, p, c);
      SettledBounds(edges, d, s, p, u);
      SettledBounds(edges, d, u, c, u);
      assert false;
    }
  }

  /** An improvement after enough rounds can only come from a negative cycle. */
  lemma ImprovedCycle(edges: seq<Edge>, s: nat, d: seq<Distance>, via: seq<seq<nat>>, limit: nat, k: nat)
    requires InGraph(edges, |d|) && s < |d| && Covers(edges, s, d, |d| - 1)
    requires Witnessed(edges, s, d, via, limit) && k < |edges|
    requires Better(Through(d[edges[k].from], edges[k]), d[edges[k].to])
    ensures NegativeCycle(edges, s)
  {
    var e := edges[k];
    var w := via[e.from] + [k];
    assert w[..|w| - 1] == via[e.from];
    assert IsWalk(edges, s, w, e.to) && Weight(edges, w) == d[e.from].value + e.weight;
    if !NegativeCycle(edges, s) {
      CoversAll(edges, s, d, w, e.to);
      assert false;
    }
  }

  /** Without a negative cycle, walks with fewer edges than vertices bound all walks. */
  lemma CoversAll(edges: seq<Edge>, s: nat, d: seq<Distance>, w: seq<nat>, v: nat)
    requires InGraph(edges, |d|) && s < |d| && Covers(edges, s, d, |d| - 1)
    requires IsWalk(edges, s, w, v) && v < |d| && !NegativeCycle(edges, s)
    ensures AtMost(d[v], Reached(Weight(edges, w)))
  {
    var short := Shorten(edges, |d|, s, w, v);
    assert AtMost(d[v], Reached(Weight(edges, short)));
  }

  // ----------------------------------------------------------------- algorithm

  /** Relaxes one edge in place. */
  method RelaxEdge(edges: seq<Edge>, k: nat, exact: array<Distance>) returns (relaxed: bool)
    requires k < |edges| && InGraph(edges, exact.Length)
    modifies exact
    ensures relaxed == Better(Through(old(exact[edges[k].from]), edges[k]), old(exact[edges[k].to]))
    ensures exact[..] == Relaxed(edges, old(exact[..]), k)
  {
    var e := edges[k];
    var candidate := Through(exact[e.from], e);
    relaxed := Better(candidate, exact[e.to]);
    if relaxed {
      exact[e.to] := candidate;
    }
  }

  lemma PassedStep(edges: seq<Edge>, before: seq<Distance>, now: seq<Distance>, after: seq<Distance>, k: nat)
    requires InGraph(edges, |before|) && k < |edges| && Passed(edges, before, now, k)
    requires var e := edges[k]; var through := Through(now[e.from], e);
             after == if Better(through, now[e.to]) then now[e.to := through] else now
    ensures Passed(edges, before, after, k + 1)
  {
    var e := edges[k];
    assert AtMost(now[e.from], before[e.from]);
    forall j | 0 <= j < k + 1
      ensures AtMost(after[edges[j].to], Through(before[edges[j].from], edges[j]))
    {
      if j < k {
        assert AtMost(now[edges[j].to], Through(before[edges[j].from], edges[j]));
      }
    }
    forall v | 0 <= v < |after| ensures AtMost(after[v], before[v]) {
      assert AtMost(now[v], before[v]);
    }
  }

  /** The first edge a pass can use. */
  ghost predicate Improvable(edges: seq<Edge>, d: seq<Distance>, k: nat)
    requires InGraph(edges, |d|)
  {
    k < |edges| && Better(Through(d[edges[k].from], edges[k]), d[edges[k].to])
  }

  lemma {:induction false} PassTablePassed(edges: seq<Edge>, d: seq<Distance>, k: nat)
    requires InGraph(edges, |d|) && k <= |edges|
    ensures Passed(edges, d, PassTable(edges, d, k), k)
  {
    if k > 0 {
      PassTablePassed(edges, d, k - 1);
      PassedStep(edges, d, PassTable(edges, d, k - 1), PassTable(edges, d, k), k - 1);
    }
  }

  /** One pass over all edges, in place. */
  method RelaxExact(edges: seq<Edge>, exact: array<Distance>, ghost s: nat, ghost via: seq<seq<nat>>, ghost limit: nat)
    returns (relaxed: bool, ghost via': seq<seq<nat>>, ghost improved: nat)
    requires InGraph(edges, exact.Length) && Witnessed(edges, s, exact[..], via, limit)
    modifies exact
    ensures Witnessed(edges, s, exact[..], via', limit + |edges|)
    ensures Passed(edges, old(exact[..]), exact[..], |edges|)
    ensures exact[..] == PassTable(edges, old(exact[..]), |edges|)
    ensures !relaxed ==> exact[..] == old(exact[..])
    ensures relaxed ==> Improvable(edges, old(exact[..]), improved) && exact[..] != old(exact[..])
  {
    ghost var before := exact[..];
    relaxed, improved := RelaxAll(edges, exact);
    PassTablePassed(edges, before, |edges|);
    via' := PassWitnessed(edges, s, before, via, limit, |edges|);
    if relaxed {
      var e := edges[improved];
      assert AtMost(exact[..][e.to], Through(before[e.from], e));
    }
  }

  method RelaxAll(edges: seq<Edge>, exact: array<Distance>) returns (relaxed: bool, ghost improved: nat)
    requires InGraph(edges, exact.Length)
    modifies exact
    ensures exact[..] == PassTable(edges, old(exact[..]), |edges|)
    ensures !relaxed ==> exact[..] == old(exact[..])
    ensures relaxed ==> Improvable(edges, old(exact[..]), improved)
  {
    relaxed, improved := false, 0;
    ghost var before := exact[..];
    for k := 0 to |edges|
      invariant exact[..] == PassTable(edges, before, k)
      invariant !relaxed ==> exact[..] == before
      invariant relaxed ==> Improvable(edges, before, improved)
    {
      var changed := RelaxEdge(edges, k, exact);
      if changed && !relaxed {
        improved := k;
      }
      relaxed := relaxed || changed;
    }
  }

  /** The walks after using edge `k`. */
  lemma Extend(edges: seq<Edge>, s: nat, d: seq<Distance>, via: seq<seq<nat>>, limit: nat, k: nat)
    returns (via': seq<seq<nat>>)
    requires InGraph(edges, |d|) && k < |edges| && Witnessed(edges, s, d, via, limit)
    requires Through(d[edges[k].from], edges[k]).Reached?
    ensures Witnessed(edges, s, d[edges[k].to := Through(d[edges[k].from], edges[k])], via', limit + 1)
  {
    var e := edges[k];
    var w := via[e.from] + [k];
    assert w[..|w| - 1] == via[e.from];
    via' := via[e.to := w];
    var d' := d[e.to := Through(d[e.from], e)];
    forall v | 0 <= v < |d'| && d'[v].Reached?
      ensures IsWalk(edges, s, via'[v], v) && Weight(edges, via'[v]) == d'[v].value && |via'[v]| <= limit + 1
    {
      assert d[v] == d[v] && d[e.from] == d[e.from];
    }
  }

  /** Nothing to relax means settled. */
  lemma PassedSettled(edges: seq<Edge>, d: seq<Distance>)
    requires InGraph(edges, |d|) && Passed(edges, d, d, |edges|)
    ensures Settled(edges, d)
  {
  }

  /** What the oracle reports. */
  datatype Report = Report(negativeCycle: bool, saturated: bool)

  /** `x` is the exact shortest distance from `s` to `v`. */
  ghost predicate Shortest(edges: seq<Edge>, s: nat, v: nat, x: int) {
    && (exists w :: IsWalk(edges, s, w, v) && Weight(edges, w) == x)
    && (forall w :: IsWalk(edges, s, w, v) ==> x <= Weight(edges, w))
  }

  ghost predicate ShortBelow(edges: seq<Edge>, s: nat, v: nat, x: int) { Shortest(edges, s, v, x) && x < INT32_MIN }

  /** Some reachable vertex has a shortest distance that 32 bits cannot hold. */
  ghost predicate BelowRange(edges: seq<Edge>, n: nat, s: nat) {
    exists v: nat, x: int :: v < n && ShortBelow(edges, s, v, x)
  }

  /** The table right after initialisation: only the source, by the empty walk. */
  lemma StartTable(edges: seq<Edge>, s: nat, d: seq<Distance>, via: seq<seq<nat>>)
    requires s < |d| == |via| && d[s] == Reached(0) && via[s] == []
    requires forall v {:trigger d[v]} :: 0 <= v < |d| && v != s ==> d[v] == Unreached
    ensures Witnessed(edges, s, d, via, 0) && Covers(edges, s, d, 0)
  {
  }

  lemma SourceReached(edges: seq<Edge>, s: nat, d: seq<Distance>)
    requires Covers(edges, s, d, 0) && s < |d|
    ensures d[s].Reached?
  {
    assert IsWalk(edges, s, [], s);
  }

  lemma CoversFewer(edges: seq<Edge>, s: nat, d: seq<Distance>, k: nat, j: nat)
    requires Covers(edges, s, d, k) && j <= k
    ensures Covers(edges, s, d, j)
  {
  }

  /** A table after `round` passes covers all walks of at most so many edges. */
  lemma {:induction false} RoundCovers(edges: seq<Edge>, n: nat, s: nat, round: nat)
    requires InGraph(edges, n) && s < n
    ensures Covers(edges, s, RoundTable(edges, StartOf(n, s), round), round)
  {
    if round == 0 {
      StartTable(edges, s, StartOf(n, s), seq(n, v => []));
    } else {
      RoundCovers(edges, n, s, round - 1);
      var before := RoundTable(edges, StartOf(n, s), round - 1);
      PassTablePassed(edges, before, |edges|);
      PassedCovers(edges, s, before, RoundTable(edges, StartOf(n, s), round), round - 1);
    }
  }

  /** All rounds: at most one less than the number of vertices, fewer if one changes nothing. */
  method RunRounds(n: nat, edges: seq<Edge>, exact: array<Distance>, ghost s: nat) returns (ghost rounds: nat)
    requires n == exact.Length && s < n && InGraph(edges, n) && exact[..] == StartOf(n, s)
    modifies exact
    ensures rounds <= n - 1 && exact[..] == RoundTable(edges, StartOf(n, s), rounds)
    ensures rounds == n - 1 || PassTable(edges, exact[..], |edges|) == exact[..]
  {
    rounds := 0;
    for round := 0 to n - 1
      invariant rounds == round && exact[..] == RoundTable(edges, StartOf(n, s), round)
    {
      var relaxed;
      ghost var improved;
      relaxed, improved := RelaxAll(edges, exact);
      rounds := round + 1;
      if !relaxed {
        return;
      }
    }
  }

  /** What the rounds establish. */
  method RelaxRounds(n: nat, edges: seq<Edge>, exact: array<Distance>, ghost s: nat)
    returns (ghost via: seq<seq<nat>>, ghost rounds: nat)
    requires n == exact.Length && s < n && InGraph(edges, n) && exact[..] == StartOf(n, s)
    modifies exact
    ensures rounds <= n - 1 && exact[..] == RoundTable(edges, StartOf(n, s), rounds)
    ensures Witnessed(edges, s, exact[..], via, Offset(n - 1, |edges|))
    ensures Covers(edges, s, exact[..], 0)
    ensures Settled(edges, exact[..]) || Covers(edges, s, exact[..], n - 1)
  {
    rounds := RunRounds(n, edges, exact, s);
    ghost var d := RoundTable(edges, StartOf(n, s), rounds);
    via := RoundWitnessed(edges, n, s, rounds);
    OffsetMonotone(rounds, n - 1, |edges|);
    via := WitnessedMore(edges, s, d, via, Offset(rounds, |edges|), Offset(n - 1, |edges|));
    RoundCovers(edges, n, s, rounds);
    CoversFewer(edges, s, d, rounds, 0);
    if rounds < n - 1 {
      PassTablePassed(edges, d, |edges|);
      PassedSettled(edges, d);
    }
  }

  lemma WitnessedMore(edges: seq<Edge>, s: nat, d: seq<Distance>, via: seq<seq<nat>>, limit: nat, more: nat)
    returns (same: seq<seq<nat>>)
    requires Witnessed(edges, s, d, via, limit) && limit <= more
    ensures same == via && Witnessed(edges, s, d, same, more)
  {
    same := via;
  }

  // ------------------------------------------------------------------- range

  const INT64_MAX: int := 0x7fff_ffff_ffff_ffff

  ghost predicate Int32Weights(edges: seq<Edge>) {
    forall k {:trigger edges[k]} :: 0 <= k < |edges| ==> INT32_MIN <= edges[k].weight <= INT32_MAX
  }

  lemma {:induction false} WeightBound(edges: seq<Edge>, s: nat, w: seq<nat>, v: nat)
    requires Int32Weights(edges) && IsWalk(edges, s, w, v)
    ensures -0x8000_0000 * |w| <= Weight(edges, w) <= 0x8000_0000 * |w|
    decreases |w|
  {
    if |w| > 0 {
      WeightBound(edges, s, w[..|w| - 1], edges[w[|w| - 1]].from);
      assert INT32_MIN <= edges[w[|w| - 1]].weight <= INT32_MAX;
    }
  }

  /** With fewer than 2^32 relaxations no distance or candidate leaves 64 bits or meets the
      unreached mark. */
  lemma Fits64(edges: seq<Edge>, s: nat, d: seq<Distance>, via: seq<seq<nat>>, limit: nat, v: nat, k: nat)
    requires Int32Weights(edges) && Witnessed(edges, s, d, via, limit) && limit + 1 < 0x1_0000_0000
    requires v < |d| && d[v].Reached? && k < |edges|
    ensures -INT64_MAX <= d[v].value < INT64_MAX && -INT64_MAX <= d[v].value + edges[k].weight < INT64_MAX
  {
    assert IsWalk(edges, s, via[v], v);
    WeightBound(edges, s, via[v], v);
    assert INT32_MIN <= edges[k].weight <= INT32_MAX;
  }

  /** Every pass of a run stays within the number of vertices times the number of edges. */
  lemma PassLimit(n: nat, m: nat, round: nat, k: nat)
    requires round < n && k < m
    ensures Offset(round, m) + k + 1 <= n * m
  {
    OffsetMonotone(round + 1, n, m);
    OffsetIsProduct(n, m);
  }

  /** The walks behind every table of a run. */
  lemma {:induction false} PassWitnessed(edges: seq<Edge>, s: nat, d: seq<Distance>, via: seq<seq<nat>>, limit: nat,
                                         k: nat)
    returns (via': seq<seq<nat>>)
    requires InGraph(edges, |d|) && Witnessed(edges, s, d, via, limit) && k <= |edges|
    ensures Witnessed(edges, s, PassTable(edges, d, k), via', limit + k)
  {
    via' := via;
    if k > 0 {
      via' := PassWitnessed(edges, s, d, via, limit, k - 1);
      var now, e := PassTable(edges, d, k - 1), edges[k - 1];
      if Better(Through(now[e.from], e), now[e.to]) {
        via' := Extend(edges, s, now, via', limit + k - 1, k - 1);
      } else {
        via' := WitnessedMore(edges, s, now, via', limit + k - 1, limit + k);
      }
    }
  }

  lemma {:induction false} RoundWitnessed(edges: seq<Edge>, n: nat, s: nat, round: nat) returns (via: seq<seq<nat>>)
    requires InGraph(edges, n) && s < n
    ensures Witnessed(edges, s, RoundTable(edges, StartOf(n, s), round), via, Offset(round, |edges|))
  {
    if round == 0 {
      via := seq(n, v => []);
      StartTable(edges, s, StartOf(n, s), via);
    } else {
      via := RoundWitnessed(edges, n, s, round - 1);
      via := PassWitnessed(edges, s, RoundTable(edges, StartOf(n, s), round - 1), via, Offset(round - 1, |edges|),
                           |edges|);
    }
  }

  predicate InRange64(x: int) { -INT64_MAX <= x < INT64_MAX }

  /** When pass `round` comes to edge `k`, every stored distance and the new candidate are 64-bit
      values other than the unreached mark. */
  ghost predicate StepFits(edges: seq<Edge>, n: nat, s: nat, round: nat, k: nat)
    requires InGraph(edges, n) && k < |edges|
  {
    var d := TableAt(edges, n, s, round, k);
    && (forall v {:trigger d[v]} :: 0 <= v < n && d[v].Reached? ==> InRange64(d[v].value))
    && (d[edges[k].from].Reached? ==> InRange64(d[edges[k].from].value + edges[k].weight))
  }

  /** No pass of a run, up to and including pass `last`, leaves 64 bits. */
  ghost predicate RunFits(edges: seq<Edge>, n: nat, s: nat, last: nat)
    requires InGraph(edges, n)
  {
    forall round: nat, k: nat {:trigger StepFits(edges, n, s, round, k)} :: round <= last && k < |edges| ==>
      StepFits(edges, n, s, round, k)
  }

  /** While vertices times edges stay below 2^32, no step of any pass overflows. */
  lemma NoOverflow(edges: seq<Edge>, n: nat, s: nat, round: nat, k: nat)
    requires InGraph(edges, n) && s < n && Int32Weights(edges) && n * |edges| < 0x1_0000_0000
    requires round < n && k < |edges|
    ensures StepFits(edges, n, s, round, k)
  {
    var d := TableAt(edges, n, s, round, k);
    var via := RoundWitnessed(edges, n, s, round);
    via := PassWitnessed(edges, s, RoundTable(edges, StartOf(n, s), round), via, Offset(round, |edges|), k);
    PassLimit(n, |edges|, round, k);
    forall v | 0 <= v < n && d[v].Reached? ensures InRange64(d[v].value) {
      Fits64(edges, s, d, via, Offset(round, |edges|) + k, v, k);
    }
    if d[edges[k].from].Reached? {
      Fits64(edges, s, d, via, Offset(round, |edges|) + k, edges[k].from, k);
    }
  }

  lemma RunInRange(edges: seq<Edge>, n: nat, s: nat, last: nat)
    requires InGraph(edges, n) && s < n && last < n
    ensures Int32Weights(edges) && n * |edges| < 0x1_0000_0000 ==> RunFits(edges, n, s, last)
  {
    if Int32Weights(edges) && n * |edges| < 0x1_0000_0000 {
      forall round: nat, k: nat {:trigger StepFits(edges, n, s, round, k)} | round <= last && k < |edges|
        ensures StepFits(edges, n, s, round, k)
      {
        NoOverflow(edges, n, s, round, k);
      }
    }
  }

  // ------------------------------------------------------------------- oracle

  /** An edge as the caller gives it. */
  datatype Arc = Arc(from: int, to: int, weight: int)

  function AsEdges(arcs: seq<Arc>): (edges: seq<Edge>)
    ensures |edges| == |arcs|
    ensures forall k {:trigger edges[k]} :: 0 <= k < |edges| ==> edges[k] == AsEdge(arcs[k])
  {
    seq(|arcs|, k requires 0 <= k < |arcs| => AsEdge(arcs[k]))
  }

  function AsEdge(a: Arc): Edge {
    Edge(if a.from < 0 then 0 else a.from, if a.to < 0 then 0 else a.to, a.weight)
  }

  ghost predicate ArcsInGraph(arcs: seq<Arc>, n: int) {
    forall k {:trigger arcs[k]} :: 0 <= k < |arcs| ==> 0 <= arcs[k].from < n && 0 <= arcs[k].to < n
  }

  /** A settled, witnessed table holds exactly the shortest distances. */
  lemma SettledShortest(edges: seq<Edge>, s: nat, d: seq<Distance>, via: seq<seq<nat>>, limit: nat, v: nat, x: int)
    requires InGraph(edges, |d|) && Settled(edges, d) && Witnessed(edges, s, d, via, limit)
    requires s < |d| && d[s] == Reached(0) && v < |d|
    ensures d[v] == Reached(x) <==> Shortest(edges, s, v, x)
  {
    if d[v].Reached? {
      assert IsWalk(edges, s, via[v], v) && Weight(edges, via[v]) == d[v].value;
    }
    forall w | IsWalk(edges, s, w, v) ensures AtMost(d[v], Reached(Weight(edges, w))) {
      SettledBounds(edges, d, s, w, v);
    }
  }

  /** The source keeps distance zero unless a negative cycle lowers it. */
  lemma SourceZero(edges: seq<Edge>, s: nat, d: seq<Distance>, via: seq<seq<nat>>, limit: nat)
    requires s < |d| && Witnessed(edges, s, d, via, limit) && Covers(edges, s, d, 0) && !NegativeCycle(edges, s)
    ensures d[s] == Reached(0)
  {
    assert IsWalk(edges, s, [], s);
    assert AtMost(d[s], Reached(Weight(edges, [])));
    CycleNotNegative(edges, s, s, [], via[s]);
  }

  lemma SaturatedExactly(edges: seq<Edge>, s: nat, d: seq<Distance>, via: seq<seq<nat>>, limit: nat)
    requires InGraph(edges, |d|) && Settled(edges, d) && Witnessed(edges, s, d, via, limit)
    requires s < |d| && d[s] == Reached(0)
    ensures BelowRange(edges, |d|, s) <==>
            exists v: nat :: v < |d| && d[v].Reached? && d[v].value < INT32_MIN
  {
    if BelowRange(edges, |d|, s) {
      var v: nat, x: int :| v < |d| && ShortBelow(edges, s, v, x);
      SettledShortest(edges, s, d, via, limit, v, x);
    }
    if v: nat :| v < |d| && d[v].Reached? && d[v].value < INT32_MIN {
      SettledShortest(edges, s, d, via, limit, v, d[v].value);
      assert ShortBelow(edges, s, v, d[v].value);
    }
  }

  method ArcsValid(n: int, arcs: seq<Arc>) returns (ok: bool)
    ensures ok <==> ArcsInGraph(arcs, n)
  {
    for k := 0 to |arcs|
      invariant forall j {:trigger arcs[j]} :: 0 <= j < k ==> 0 <= arcs[j].from < n && 0 <= arcs[j].to < n
    {
      if arcs[k].from < 0 || arcs[k].from >= n || arcs[k].to < 0 || arcs[k].to >= n {
        return false;
      }
    }
    ok := true;
  }

  method AnyBelow(exact: array<Distance>) returns (below: bool)
    ensures below <==> exists v: nat :: v < exact.Length && exact[v].Reached? && exact[v].value < INT32_MIN
  {
    below := false;
    for v := 0 to exact.Length
      invariant below <==> exists u: nat :: u < v && exact[u].Reached? && exact[u].value < INT32_MIN
    {
      if exact[v].Reached? && exact[v].value < INT32_MIN {
        below := true;
      }
    }
  }

  /** Both flags are exact: a negative cycle is reported if and only if one of usable edges is
      reachable; saturation if and only if there is none and some shortest distance is below the
      32-bit range. Invalid input reports neither. While vertices times edges stay below 2^32, no
      pass, the detecting one included, leaves 64 bits. */
  method Oracle(n: int, arcs: seq<Arc>, s: int) returns (report: Report, ghost last: nat)
    ensures !(n > 0 && 0 <= s < n && ArcsInGraph(arcs, n)) ==> report == Report(false, false)
    ensures n > 0 && 0 <= s < n && ArcsInGraph(arcs, n) ==>
              && (report.negativeCycle <==> NegativeCycle(AsEdges(arcs), s))
              && (report.saturated <==> !NegativeCycle(AsEdges(arcs), s) && BelowRange(AsEdges(arcs), n, s))
              && Passes(AsEdges(arcs), n, s, last, report)
              && (Int32Weights(AsEdges(arcs)) && n * |arcs| < 0x1_0000_0000 ==> RunFits(AsEdges(arcs), n, s, last))
  {
    last := 0;
    if n <= 0 || s < 0 || s >= n {
      return Report(false, false), 0;
    }
    var ok := ArcsValid(n, arcs);
    if !ok {
      return Report(false, false), 0;
    }
    report, last := Detect(n, AsEdges(arcs), s);
  }

  /** The run made passes 0 to `last`, and the last one decided the report. */
  ghost predicate Passes(edges: seq<Edge>, n: nat, s: nat, last: nat, report: Report)
    requires InGraph(edges, n)
  {
    && last < n
    && (report.negativeCycle <==> TableAt(edges, n, s, last, |edges|) != TableAt(edges, n, s, last, 0))
  }

  method Detect(n: nat, edges: seq<Edge>, s: nat) returns (report: Report, ghost last: nat)
    requires s < n && InGraph(edges, n)
    ensures report.negativeCycle <==> NegativeCycle(edges, s)
    ensures report.saturated <==> !NegativeCycle(edges, s) && BelowRange(edges, n, s)
    ensures Passes(edges, n, s, last, report)
    ensures Int32Weights(edges) && n * |edges| < 0x1_0000_0000 ==> RunFits(edges, n, s, last)
  {
    var exact := new Distance[n](v => Unreached);
    exact[s] := Reached(0);
    assert exact[..] == StartOf(n, s);
    ghost var via;
    via, last := RelaxRounds(n, edges, exact, s);
    RunInRange(edges, n, s, last);
    ghost var before, limit := exact[..], Offset(n - 1, |edges|);
    var relaxed;
    ghost var after, improved;
    relaxed, after, improved := RelaxExact(edges, exact, s, via, limit);
    report := Decide(edges, exact, s, via, limit, before, relaxed, improved);
  }

  /** The flags, from what the detecting pass changed. */
  method Decide(edges: seq<Edge>, exact: array<Distance>, ghost s: nat, ghost via: seq<seq<nat>>, ghost limit: nat,
                ghost before: seq<Distance>, relaxed: bool, ghost improved: nat)
    returns (report: Report)
    requires InGraph(edges, exact.Length) && s < exact.Length == |before| && Witnessed(edges, s, before, via, limit)
    requires Covers(edges, s, before, 0) && (Settled(edges, before) || Covers(edges, s, before, |before| - 1))
    requires Passed(edges, before, exact[..], |edges|)
    requires if relaxed then Improvable(edges, before, improved) else exact[..] == before
    ensures report.negativeCycle == relaxed
    ensures report.negativeCycle <==> NegativeCycle(edges, s)
    ensures report.saturated <==> !NegativeCycle(edges, s) && BelowRange(edges, exact.Length, s)
  {
    if relaxed {
      if !Settled(edges, before) {
        ImprovedCycle(edges, s, before, via, limit, improved);
      }
      return Report(true, false);
    }
    PassedSettled(edges, before);
    SourceReached(edges, s, before);
    SettledNoCycle(edges, s, before);
    SourceZero(edges, s, before, via, limit);
    SaturatedExactly(edges, s, before, via, limit);
    var below := AnyBelow(exact);
    report := Report(false, below);
  }
}
