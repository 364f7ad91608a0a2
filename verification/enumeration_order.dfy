/** Which assignment exhaustive enumeration keeps and how many calls it makes (software/pbqp/pbqp.cpp:
    EnumerateActiveCore, Enumerate). */
module EnumerationOrder {
  import opened Basics
  import opened Costs
  import opened Graphs
  import opened Search
  import opened Enumeration

  // ------------------------------------------------------------- the first cheapest

  /** Lexicographic order of assignments. */
  ghost predicate Precedes(y: Assignment, z: Assignment) {
    |y| == |z| && exists j :: 0 <= j < |y| && y[j] < z[j] && forall k :: 0 <= k < j ==> y[k] == z[k]
  }

  /** `y` is one of the assignments tried from node `i` on with fewer than `v` values of that node. */
  ghost predicate Tried(s: State, i: nat, x: Assignment, v: nat, y: Assignment) {
    Valid(s, y) && Reaches(s, i, x, y) && (i < |y| ==> y[i] < v)
  }

  function DomainAt(s: State, i: nat): nat { if i < |s.nodes| then s.nodes[i].domain else 0 }

  /** The incumbent afterwards: the one from before if nothing tried is cheaper, and otherwise the
      lexicographically first of the cheapest assignments tried. */
  ghost predicate Keeps(s: State, i: nat, x: Assignment, v: nat, found: Incumbent, next: Incumbent) {
    if next == found
    then forall y {:trigger Tried(s, i, x, v, y)} :: Tried(s, i, x, v, y) ==>
           found.Best? && found.optimum <= EvaluateCore(s, y)
    else
      && next.Best? && Tried(s, i, x, v, next.assignment) && next.optimum == EvaluateCore(s, next.assignment)
      && (found.Best? ==> next.optimum < found.optimum)
      && forall y {:trigger Tried(s, i, x, v, y)} :: Tried(s, i, x, v, y) ==>
           && next.optimum <= EvaluateCore(s, y)
           && (Precedes(y, next.assignment) ==> next.optimum < EvaluateCore(s, y))
  }

  /** The assignments with one more value of node `i` are those with that value and the rest. */
  lemma TriedSplit(s: State, i: nat, x: Assignment, v: nat, y: Assignment)
    requires i < |s.nodes| && s.nodes[i].active && 0 < v <= s.nodes[i].domain && Valid(s, x)
    ensures var z := x[i := v - 1];
            && (Tried(s, i, x, v, y) <==> Tried(s, i, x, v - 1, y) || Tried(s, i + 1, z, DomainAt(s, i + 1), y))
            && (Tried(s, i + 1, z, DomainAt(s, i + 1), y) ==> y[i] == v - 1)
  {
  }

  lemma TriedPast(s: State, i: nat, x: Assignment, y: Assignment)
    requires i < |s.nodes| && !s.nodes[i].active && Valid(s, x)
    ensures Tried(s, i, x, DomainAt(s, i), y) <==> Tried(s, i + 1, x, DomainAt(s, i + 1), y)
  {
  }

  /** A smaller value at the first node that may differ comes first. */
  lemma NotPrecedes(s: State, i: nat, x: Assignment, y: Assignment, a: Assignment)
    requires Reaches(s, i, x, y) && Reaches(s, i, x, a) && i < |y| && a[i] < y[i]
    ensures !Precedes(y, a)
  {
    forall j | 0 <= j < |y| && forall k :: 0 <= k < j ==> y[k] == a[k] ensures y[j] >= a[j] {
    }
  }

  lemma KeepsBoth(s: State, i: nat, x: Assignment, v: nat, found: Incumbent, before: Incumbent, next: Incumbent)
    requires i < |s.nodes| && s.nodes[i].active && 0 < v <= s.nodes[i].domain && Valid(s, x)
    requires Keeps(s, i, x, v - 1, found, before)
    requires Keeps(s, i + 1, x[i := v - 1], DomainAt(s, i + 1), before, next)
    ensures Keeps(s, i, x, v, found, next)
  {
    var z := x[i := v - 1];
    forall y | Tried(s, i, x, v, y)
      ensures next.Best? && next.optimum <= EvaluateCore(s, y)
      ensures next != found && Precedes(y, next.assignment) ==> next.optimum < EvaluateCore(s, y)
    {
      TriedSplit(s, i, x, v, y);
      if next == before && before != found && !Tried(s, i, x, v - 1, y) {
        NotPrecedes(s, i, x, y, before.assignment);
      }
    }
    if next != found {
      TriedSplit(s, i, x, v, next.assignment);
    }
  }

  /** Enumeration keeps the lexicographically first of the cheapest assignments it tries, unless the
      incumbent is as cheap. */
  lemma {:induction false} EnumerateKeeps(s: State, i: nat, x: Assignment, found: Incumbent)
    requires i <= |s.nodes| && Valid(s, x)
    ensures Keeps(s, i, x, DomainAt(s, i), found, Enumerate(s, i, x, found))
    decreases |s.nodes| - i, 1, 0
  {
    if i == |s.nodes| {
      LeafKeeps(s, x, found);
    } else if !s.nodes[i].active {
      EnumerateKeeps(s, i + 1, x, found);
      PastKeeps(s, i, x, found, Enumerate(s, i + 1, x, found));
    } else {
      EnumerateValuesKeeps(s, i, s.nodes[i].domain, x, found);
    }
  }

  lemma LeafKeeps(s: State, x: Assignment, found: Incumbent)
    requires Valid(s, x)
    ensures Keeps(s, |s.nodes|, x, 0, found, Better(found, EvaluateCore(s, x), x))
  {
    forall y | Tried(s, |s.nodes|, x, 0, y) ensures y == x && !Precedes(y, x) {
    }
    assert Tried(s, |s.nodes|, x, 0, x);
  }

  lemma PastKeeps(s: State, i: nat, x: Assignment, found: Incumbent, next: Incumbent)
    requires i < |s.nodes| && !s.nodes[i].active && Valid(s, x)
    requires Keeps(s, i + 1, x, DomainAt(s, i + 1), found, next)
    ensures Keeps(s, i, x, DomainAt(s, i), found, next)
  {
    forall y ensures Tried(s, i, x, DomainAt(s, i), y) <==> Tried(s, i + 1, x, DomainAt(s, i + 1), y) {
      TriedPast(s, i, x, y);
    }
  }

  lemma {:induction false} EnumerateValuesKeeps(s: State, i: nat, v: nat, x: Assignment, found: Incumbent)
    requires i < |s.nodes| && s.nodes[i].active && v <= s.nodes[i].domain && Valid(s, x)
    ensures Keeps(s, i, x, v, found, EnumerateValues(s, i, v, x, found))
    decreases |s.nodes| - i, 0, v
  {
    if v > 0 {
      var before := EnumerateValues(s, i, v - 1, x, found);
      EnumerateValuesKeeps(s, i, v - 1, x, found);
      EnumerateKeeps(s, i + 1, x[i := v - 1], before);
      KeepsBoth(s, i, x, v, found, before, Enumerate(s, i + 1, x[i := v - 1], before));
    }
  }

  // -------------------------------------------------------------------- calls

  /** Values tried at a node. */
  function Width(s: State, i: nat): nat
    requires i < |s.nodes|
  {
    if s.nodes[i].active then s.nodes[i].domain else 1
  }

  /** Combinations of the values of nodes `i` to `j - 1`. */
  function Combinations(s: State, i: nat, j: nat): nat
    requires i <= j <= |s.nodes|
  {
    if i == j then 1 else Combinations(s, i, j - 1) * Width(s, j - 1)
  }

  /** The combinations of no node, of one node, and so on up to all nodes before `j`. */
  function AllCombinations(s: State, i: nat, j: nat): nat
    requires i <= j <= |s.nodes|
  {
    if i == j then 1 else AllCombinations(s, i, j - 1) + Combinations(s, i, j)
  }

  lemma {:induction false} CombinationsFront(s: State, i: nat, j: nat)
    requires i < j <= |s.nodes|
    ensures Combinations(s, i, j) == Width(s, i) * Combinations(s, i + 1, j)
    decreases j
  {
    if i + 1 == j {
      assert Combinations(s, i, i) == 1 && Combinations(s, i + 1, j) == 1;
    } else {
      CombinationsFront(s, i, j - 1);
      var a, b, c := Width(s, i), Combinations(s, i + 1, j - 1), Width(s, j - 1);
      assert (a * b) * c == a * (b * c);
    }
  }

  lemma {:induction false} AllFront(s: State, i: nat, j: nat)
    requires i < j <= |s.nodes|
    ensures AllCombinations(s, i, j) == 1 + Width(s, i) * AllCombinations(s, i + 1, j)
    decreases j
  {
    CombinationsFront(s, i, j);
    if i + 1 == j {
      assert AllCombinations(s, i, i) == 1 && AllCombinations(s, i + 1, j) == 1;
    } else {
      AllFront(s, i, j - 1);
      var a, b, c := Width(s, i), AllCombinations(s, i + 1, j - 1), Combinations(s, i + 1, j);
      assert a * b + a * c == a * (b + c);
    }
  }

  /** Enumeration makes one call for every combination of values of the first nodes, for every number
      of them. */
  lemma {:induction false} CallsCounted(s: State, i: nat)
    requires i <= |s.nodes|
    ensures Calls(s, i) == AllCombinations(s, i, |s.nodes|)
    decreases |s.nodes| - i
  {
    if i < |s.nodes| {
      CallsCounted(s, i + 1);
      AllFront(s, i, |s.nodes|);
      OffsetIsProduct(Width(s, i), Calls(s, i + 1));
    }
  }
}
