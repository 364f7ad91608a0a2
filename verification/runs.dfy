/** Whole runs of eliminations, the reverse-order reconstruction, and what they keep
    (software/pbqp/pbqp.cpp: FindReducibleNode, the reduction loops, ReconstructSolution). */
module Runs {
  import opened Basics
  import opened Costs
  import opened Graphs
  import opened Reductions
  import opened ReductionTwo

  ghost predicate Good(s: State) { WF(s) && Safe(s) }

  // ---------------------------------------------------------- what a run keeps

  /** Every assignment consistent with the records of `s` costs the same in `o` and in `s`. */
  ghost predicate Tracks(o: State, s: State) {
    && (forall x :: Valid(o, x) <==> Valid(s, x))
    && (forall x :: Valid(s, x) && Consistent(s, x) ==>
          Consistent(o, x) && Objective(s, x) == Objective(o, x))
  }

  lemma StepTracks(s: State, t: State, u: nat)
    requires OrderOk(s) && Eliminates(s, t, u) && Faithful(s, t, u)
    ensures Tracks(s, t)
  {
    forall x ensures Valid(s, x) <==> Valid(t, x) {
      EliminatesConsistent(s, t, u, x);
    }
    forall x | Valid(t, x) && Consistent(t, x)
      ensures Consistent(s, x) && Objective(t, x) == Objective(s, x)
    {
      EliminatesConsistent(s, t, u, x);
    }
  }

  lemma TracksTransitive(o: State, s: State, t: State)
    requires Tracks(o, s) && Tracks(s, t)
    ensures Tracks(o, t)
  {
  }

  lemma BelowTransitive(o: State, s: State, t: State)
    requires Tracks(o, s) && Below(o, s) && Below(s, t)
    ensures Below(o, t)
  {
    forall x | Valid(o, x) ensures Le(Objective(t, x), Objective(o, x)) {
      assert Valid(s, x);
    }
  }

  // ------------------------------------------------------------ reconstruction

  /** Replays the first `k` records, last one first. */
  function Replay(s: State, k: nat, x: Assignment): Assignment
    requires k <= |s.order|
  {
    if k == 0 then x
    else
      var u := s.order[k - 1];
      if u < |s.nodes| && u < |x| then Replay(s, k - 1, x[u := Choice(s, u, x)])
      else Replay(s, k - 1, x)
  }

  function Reconstruct(s: State, x: Assignment): Assignment { Replay(s, |s.order|, x) }

  /** Node `i` is among the first `k` eliminated ones. */
  ghost predicate Pending(s: State, k: nat, i: nat)
    requires k <= |s.order|
  {
    i in s.order[..k]
  }

  /** All nodes but the first `k` eliminated ones have their final value. */
  ghost predicate Settled(s: State, k: nat, x: Assignment)
    requires k <= |s.order|
  {
    && |x| == |s.nodes|
    && (forall i: nat {:trigger Pending(s, k, i)} ::
          i < |x| && !Pending(s, k, i) ==> x[i] < s.nodes[i].domain)
    && (forall p :: k <= p < |s.order| && s.order[p] < |s.nodes| ==>
          x[s.order[p]] == Choice(s, s.order[p], x))
  }

  /** The table slot a record consults exists when the values it depends on are legal. */
  lemma ChoiceLegal(s: State, p: nat, x: Assignment)
    requires OrderOk(s) && p < |s.order| && |x| == |s.nodes|
    requires forall i: nat {:trigger Pending(s, p + 1, i)} ::
               i < |x| && !Pending(s, p + 1, i) ==> x[i] < s.nodes[i].domain
    ensures s.order[p] < |s.nodes|
    ensures Choice(s, s.order[p], x) < s.nodes[s.order[p]].domain
  {
    assert RecordOk(s, p);
    var n := s.nodes[s.order[p]];
    if n.kind == R1 {
      assert !Pending(s, p + 1, n.first);
    }
    if n.kind == R2 {
      assert !Pending(s, p + 1, n.first) && !Pending(s, p + 1, n.second);
    }
    if n.kind == R2 {
      SlotInRange(x[n.first], x[n.second], s.nodes[n.first].domain, s.nodes[n.second].domain);
    }
  }

  /** A record never consults a node eliminated before it. */
  lemma ChoiceFrame(s: State, p: nat, x: Assignment, u: nat, v: nat)
    requires OrderOk(s) && p < |s.order| && |x| == |s.nodes| && u < |x|
    requires u in s.order[..p + 1]
    ensures s.order[p] < |s.nodes|
    ensures Choice(s, s.order[p], x[u := v]) == Choice(s, s.order[p], x)
  {
    assert RecordOk(s, p);
  }

  lemma SettleNext(s: State, k: nat, x: Assignment) returns (y: Assignment)
    requires OrderOk(s) && 0 < k <= |s.order| && Settled(s, k, x)
    ensures s.order[k - 1] < |s.nodes| && y == x[s.order[k - 1] := Choice(s, s.order[k - 1], x)]
    ensures Settled(s, k - 1, y)
    ensures Replay(s, k, x) == Replay(s, k - 1, y)
  {
    var u := s.order[k - 1];
    ChoiceLegal(s, k - 1, x);
    y := x[u := Choice(s, u, x)];
    forall i: nat | i < |y| && !Pending(s, k - 1, i) ensures y[i] < s.nodes[i].domain {
      if i != u {
        assert s.order[..k] == s.order[..k - 1] + [u];
        assert !Pending(s, k, i);
      }
    }
    forall p | k - 1 <= p < |s.order| && s.order[p] < |s.nodes|
      ensures y[s.order[p]] == Choice(s, s.order[p], y)
    {
      assert u == s.order[..p + 1][k - 1];
      ChoiceFrame(s, p, x, u, Choice(s, u, x));
    }
  }

  lemma {:induction false} ReplaySettles(s: State, k: nat, x: Assignment) returns (a: Assignment)
    requires OrderOk(s) && k <= |s.order| && Settled(s, k, x)
    ensures a == Replay(s, k, x) && Settled(s, 0, a)
    decreases k
  {
    if k == 0 {
      a := x;
    } else {
      var y := SettleNext(s, k, x);
      a := ReplaySettles(s, k - 1, y);
    }
  }

  lemma {:induction false} ReplayKeeps(s: State, k: nat, x: Assignment, i: nat)
    requires k <= |s.order| && i < |x| && forall p :: 0 <= p < k ==> s.order[p] != i
    ensures |Replay(s, k, x)| == |x| && Replay(s, k, x)[i] == x[i]
    decreases k
  {
    if k > 0 {
      var u := s.order[k - 1];
      if u < |s.nodes| && u < |x| {
        ReplayKeeps(s, k - 1, x[u := Choice(s, u, x)], i);
      } else {
        ReplayKeeps(s, k - 1, x, i);
      }
    }
  }

  /** Reconstruction from any values that are legal on the active nodes, whatever the other
      entries hold, yields a valid assignment consistent with every record, and keeps the
      values of the active nodes. */
  lemma ReconstructSettles(s: State, x: Assignment)
    requires WF(s) && |x| == |s.nodes|
    requires forall i :: 0 <= i < |x| && s.nodes[i].active ==> x[i] < s.nodes[i].domain
    ensures var a := Reconstruct(s, x);
            && Valid(s, a) && Consistent(s, a)
            && (forall i :: 0 <= i < |x| && s.nodes[i].active ==> a[i] == x[i])
            && Objective(s, a) == Objective(s, x)
  {
    assert s.order[..|s.order|] == s.order;
    forall i: nat | i < |x| && !Pending(s, |s.order|, i) ensures x[i] < s.nodes[i].domain {
      assert i !in s.order;
    }
    var a := ReplaySettles(s, |s.order|, x);
    forall i: nat | i < |a| ensures a[i] < s.nodes[i].domain {
      assert !Pending(s, 0, i);
    }
    forall i | 0 <= i < |x| && s.nodes[i].active ensures a[i] == x[i] {
      ReplayKeeps(s, |s.order|, x, i);
    }
    ObjectiveFrame(s, a, x);
  }

  /** Reconstruction does not depend on what the entries of eliminated nodes held before. */
  lemma {:induction false} ReplayForgets(s: State, k: nat, x: Assignment, y: Assignment)
    requires OrderOk(s) && k <= |s.order| && |x| == |y| == |s.nodes|
    requires forall i :: 0 <= i < |x| && i !in s.order[..k] ==> x[i] == y[i]
    ensures Replay(s, k, x) == Replay(s, k, y)
    decreases k
  {
    if k == 0 {
      assert x == y;
    } else {
      var u := s.order[k - 1];
      assert RecordOk(s, k - 1);
      assert s.order[..k - 1 + 1] == s.order[..k] == s.order[..k - 1] + [u];
      assert Choice(s, u, x) == Choice(s, u, y);
      ReplayForgets(s, k - 1, x[u := Choice(s, u, x)], y[u := Choice(s, u, y)]);
    }
  }

  // --------------------------------------------------------------- exact steps

  /** The first active node of degree at most two, from index `from` on. */
  function FirstReducible(s: State, from: nat): (u: Option<nat>)
    ensures u.Some? ==>
              from <= u.value < |s.nodes| && s.nodes[u.value].active && |Incident(s, u.value)| <= 2
    ensures u.None? ==>
              forall i :: from <= i < |s.nodes| && s.nodes[i].active ==> |Incident(s, i)| > 2
    decreases |s.nodes| - from
  {
    if from >= |s.nodes| then None
    else if s.nodes[from].active && |Incident(s, from)| <= 2 then Some(from)
    else FirstReducible(s, from + 1)
  }

  lemma {:induction false} NoneReducibleBefore(s: State, from: nat, i: nat)
    requires FirstReducible(s, from).Some? && from <= i < FirstReducible(s, from).value && s.nodes[i].active
    ensures |Incident(s, i)| > 2
    decreases |s.nodes| - from
  {
    if from < i {
      NoneReducibleBefore(s, from + 1, i);
    }
  }

  /** A state, or the capacity error of a missing fill slot. */
  datatype Reduced = Done(state: State) | Full

  lemma IncidentEndpoints(s: State, u: nat)
    requires GraphOk(s)
    ensures forall i :: 0 <= i < |Incident(s, u)| ==>
              && Incident(s, u)[i] < |s.edges|
              && Touches(s.edges[Incident(s, u)[i]], u)
              && Other(s.edges[Incident(s, u)[i]], u) < |s.nodes|
              && Other(s.edges[Incident(s, u)[i]], u) != u
              && s.nodes[Other(s.edges[Incident(s, u)[i]], u)].active
  {
    IncidentToMember(s.edges, u, |s.edges|);
    forall i | 0 <= i < |Incident(s, u)|
      ensures && Incident(s, u)[i] < |s.edges|
              && Touches(s.edges[Incident(s, u)[i]], u)
              && Other(s.edges[Incident(s, u)[i]], u) < |s.nodes|
              && Other(s.edges[Incident(s, u)[i]], u) != u
              && s.nodes[Other(s.edges[Incident(s, u)[i]], u)].active
    {
      assert Incident(s, u)[i] in Incident(s, u);
      assert EdgeOk(s, s.edges[Incident(s, u)[i]]);
    }
  }

  function ReduceNode(s: State, u: nat): Reduced
    requires GraphOk(s) && u < |s.nodes| && |Incident(s, u)| <= 2
  {
    IncidentEndpoints(s, u);
    var incident := Incident(s, u);
    if |incident| == 0 then Done(ReduceR0(s, u))
    else if |incident| == 1 then Done(ReduceR1(s, u, incident[0]))
    else
      match ReduceR2(s, u, incident[0], incident[1])
      case Some(t) => Done(t)
      case None => Full
  }

  /** R0, R1 and R2 each preserve the problem. */
  lemma ReduceNodePreserves(s: State, u: nat)
    requires Good(s) && u < |s.nodes| && s.nodes[u].active && |Incident(s, u)| <= 2
    ensures ReduceNode(s, u).Done? ==>
              var t := ReduceNode(s, u).state;
              && Good(t) && Eliminates(s, t, u) && Faithful(s, t, u) && Below(s, t)
  {
    var incident := Incident(s, u);
    if |incident| == 0 {
      R0Preserves(s, u);
    } else if |incident| == 1 {
      assert incident == [incident[0]];
      R1Preserves(s, u, incident[0]);
    } else {
      assert incident == [incident[0], incident[1]];
      R2Preserves(s, u, incident[0], incident[1]);
    }
  }

  /** One exact step: the problem is tracked, bounded below, and one node smaller. */
  lemma ReduceNodeStep(s: State, u: nat)
    requires Good(s) && u < |s.nodes| && s.nodes[u].active && |Incident(s, u)| <= 2
    ensures ReduceNode(s, u).Done? ==>
              var t := ReduceNode(s, u).state;
              && Good(t) && Tracks(s, t) && Below(s, t) && ActiveNodes(t) == ActiveNodes(s) - 1
              && |t.nodes| == |s.nodes| && |t.edges| == |s.edges|
  {
    ReduceNodePreserves(s, u);
    if ReduceNode(s, u).Done? {
      var t := ReduceNode(s, u).state;
      EliminatesOrder(s, t, u);
      StepTracks(s, t, u);
    }
  }

  /** Reductions until none applies. */
  function ReduceAll(s: State): Reduced
    requires Good(s)
    decreases ActiveNodes(s)
  {
    match FirstReducible(s, 0)
    case None => Done(s)
    case Some(u) =>
      ReduceNodeStep(s, u);
      match ReduceNode(s, u)
      case Full => Full
      case Done(t) => ReduceAll(t)
  }

  /** A whole run of exact reductions preserves the problem and leaves no node of degree two
      or less. */
  lemma {:induction false} ReduceAllPreserves(s: State)
    requires Good(s)
    ensures ReduceAll(s).Done? ==>
              var t := ReduceAll(s).state;
              && Good(t) && Tracks(s, t) && Below(s, t) && ActiveNodes(t) <= ActiveNodes(s)
              && |t.nodes| == |s.nodes| && |t.edges| == |s.edges|
              && FirstReducible(t, 0) == None
    decreases ActiveNodes(s)
  {
    var u := FirstReducible(s, 0);
    if u.Some? {
      ReduceNodeStep(s, u.value);
      var r := ReduceNode(s, u.value);
      if r.Done? {
        ReduceAllPreserves(r.state);
        if ReduceAll(r.state).Done? {
          var t := ReduceAll(r.state).state;
          TracksTransitive(s, r.state, t);
          BelowTransitive(s, r.state, t);
        }
      }
    }
  }

  /** A finished run: the offset is the true optimum of the problem it started from, and the
      reconstructed assignment attains it. */
  lemma FinishedRunOptimal(o: State, s: State, x: Assignment)
    requires WF(s) && Tracks(o, s) && Below(o, s) && ActiveNodes(s) == 0 && |x| == |s.nodes|
    ensures var a := Reconstruct(s, x);
            && Valid(o, a) && Consistent(o, a) && Objective(o, a) == ToExt(s.offset)
            && (forall y :: Valid(o, y) ==> Le(ToExt(s.offset), Objective(o, y)))
  {
    NoActiveNodes(s);
    ReconstructSettles(s, x);
    forall y | |y| == |s.nodes| ensures Objective(s, y) == ToExt(s.offset) {
      EmptyObjective(s, y);
    }
    forall y | Valid(o, y) ensures Le(ToExt(s.offset), Objective(o, y)) {
      assert Valid(s, y);
    }
  }

  lemma EmptyObjective(s: State, x: Assignment)
    requires GraphOk(s) && forall i :: 0 <= i < |s.nodes| ==> !s.nodes[i].active
    ensures Objective(s, x) == ToExt(s.offset)
  {
    forall k | 0 <= k < |s.edges| ensures EdgeTerms(s, x)[k] == 0 {
      assert EdgeOk(s, s.edges[k]);
    }
    ExtSumZero(NodeTerms(s, x));
    ExtSumZero(EdgeTerms(s, x));
  }
}
