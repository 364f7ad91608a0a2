/** Saturating 32-bit costs (accelerator/src/cost_math.cpp) and the exact
    extended-integer costs they stand for.

    A machine cost is an `int` no larger than INF; INF itself means "forbidden".
    `Ext` is the value the solver means: an unbounded integer or infinity.
    Budgets bound how far a machine cost may be from zero. As long as the budgets
    of the operands sum to less than INF, machine addition is exact. */
module Costs {

  const INT32_MAX: int := 0x7fff_ffff
  const INT32_MIN: int := -0x8000_0000
  const INF: int := INT32_MAX / 4

  datatype Checked = Sum(value: int) | Rejected

  /** Command-path addition: refuses operands above INF and finite underflow. */
  function AddChecked(left: int, right: int): Checked {
    if left > INF || right > INF then Rejected
    else if left == INF || right == INF then Sum(INF)
    else if left + right >= INF then Sum(INF)
    else if left + right < INT32_MIN then Rejected
    else Sum(left + right)
  }

  /** Host-path addition: what the checked form refuses becomes INT32_MIN. */
  function Add(left: int, right: int): int {
    match AddChecked(left, right)
    case Sum(value) => value
    case Rejected => INT32_MIN
  }

  lemma AddCommutes(a: int, b: int)
    ensures AddChecked(a, b) == AddChecked(b, a) && Add(a, b) == Add(b, a)
  {
  }

  /** An exact cost. */
  datatype Ext = Fin(v: int) | Inf

  function Plus(a: Ext, b: Ext): Ext {
    if a.Inf? || b.Inf? then Inf else Fin(a.v + b.v)
  }

  predicate Le(a: Ext, b: Ext) {
    b.Inf? || (a.Fin? && a.v <= b.v)
  }

  function ToExt(c: int): Ext {
    if c == INF then Inf else Fin(c)
  }

  /** Infinity is a quarter of the largest 32-bit number. The checked sum refuses operands above it and
      finite sums below the least 32-bit number, and is otherwise the exact sum cut off at infinity. */
  lemma AddCheckedExactly(a: int, b: int)
    ensures INF == 0x1fff_ffff && INT32_MIN == -0x8000_0000
    ensures AddChecked(a, b).Sum? <==>
            a <= INF && b <= INF && (Plus(ToExt(a), ToExt(b)).Fin? ==> Plus(ToExt(a), ToExt(b)).v >= INT32_MIN)
    ensures AddChecked(a, b).Sum? ==>
              && AddChecked(a, b).value == Add(a, b) <= INF
              && (Add(a, b) < INF ==> Plus(ToExt(a), ToExt(b)) == Fin(Add(a, b)))
              && (Add(a, b) == INF ==> Le(Fin(INF), Plus(ToExt(a), ToExt(b))))
    ensures AddChecked(a, b).Rejected? ==> Add(a, b) == INT32_MIN
  {
  }

  predicate Bounded(c: int, budget: int) {
    c == INF || -budget <= c <= budget
  }

  /** Within budget, both additions are the exact sum: nothing saturates,
      clamps or is refused. */
  lemma AddExact(a: int, b: int, budgetA: nat, budgetB: nat)
    requires Bounded(a, budgetA) && Bounded(b, budgetB) && budgetA + budgetB < INF
    ensures AddChecked(a, b) == Sum(Add(a, b))
    ensures ToExt(Add(a, b)) == Plus(ToExt(a), ToExt(b))
    ensures Bounded(Add(a, b), budgetA + budgetB)
  {
  }

  lemma AddThreeExact(a: int, b: int, c: int, budgetA: nat, budgetB: nat, budgetC: nat)
    requires Bounded(a, budgetA) && Bounded(b, budgetB) && Bounded(c, budgetC)
    requires budgetA + budgetB + budgetC < INF
    ensures AddChecked(a, b) == Sum(Add(a, b))
    ensures AddChecked(Add(a, b), c) == Sum(Add(Add(a, b), c))
    ensures ToExt(Add(Add(a, b), c)) == Plus(ToExt(a), Plus(ToExt(b), ToExt(c)))
    ensures Bounded(Add(Add(a, b), c), budgetA + budgetB + budgetC)
  {
    AddExact(a, b, budgetA, budgetB);
    AddExact(Add(a, b), c, budgetA + budgetB, budgetC);
  }

  /** The exact sum of a sequence of machine costs. */
  function ExtSum(terms: seq<int>): Ext {
    if |terms| == 0 then Fin(0)
    else Plus(ExtSum(terms[..|terms| - 1]), ToExt(terms[|terms| - 1]))
  }

  /** The sum the code computes: host additions from left to right, from zero. */
  function Fold(terms: seq<int>): int {
    if |terms| == 0 then 0
    else Add(Fold(terms[..|terms| - 1]), terms[|terms| - 1])
  }

  function Total(budgets: seq<nat>): nat {
    if |budgets| == 0 then 0
    else Total(budgets[..|budgets| - 1]) + budgets[|budgets| - 1]
  }

  lemma {:induction false} TotalUpdate(budgets: seq<nat>, i: nat, b: nat)
    requires i < |budgets|
    ensures Total(budgets[i := b]) == Total(budgets) - budgets[i] + b
  {
    var last := |budgets| - 1;
    if i == last {
      assert budgets[i := b][..last] == budgets[..last];
    } else {
      TotalUpdate(budgets[..last], i, b);
      assert budgets[i := b][..last] == budgets[..last][i := b];
    }
  }

  lemma TotalMember(budgets: seq<nat>, i: nat)
    requires i < |budgets|
    ensures budgets[i] <= Total(budgets)
  {
    TotalUpdate(budgets, i, 0);
  }

  lemma TotalPair(budgets: seq<nat>, i: nat, j: nat)
    requires i < |budgets| && j < |budgets| && i != j
    ensures budgets[i] + budgets[j] <= Total(budgets)
  {
    TotalUpdate(budgets, i, 0);
    TotalMember(budgets[i := 0], j);
  }

  lemma {:induction false} TotalPrefix(budgets: seq<nat>, k: nat)
    requires k <= |budgets|
    ensures Total(budgets[..k]) <= Total(budgets)
    decreases |budgets|
  {
    if k < |budgets| {
      TotalPrefix(budgets[..|budgets| - 1], k);
      assert budgets[..|budgets| - 1][..k] == budgets[..k];
    } else {
      assert budgets[..k] == budgets;
    }
  }

  lemma {:induction false} TotalAppend(left: seq<nat>, right: seq<nat>)
    ensures Total(left + right) == Total(left) + Total(right)
  {
    if |right| == 0 {
      assert left + right == left;
    } else {
      TotalAppend(left, right[..|right| - 1]);
      assert (left + right)[..|left + right| - 1] == left + right[..|right| - 1];
    }
  }

  /** A single term can be taken out of an exact sum. */
  lemma {:induction false} ExtSumExtract(terms: seq<int>, i: nat)
    requires i < |terms|
    ensures ExtSum(terms) == Plus(ToExt(terms[i]), ExtSum(terms[i := 0]))
  {
    var last := |terms| - 1;
    var rest := terms[i := 0];
    if i == last {
      assert rest[..last] == terms[..last];
      PlusAssociative(ExtSum(terms[..last]), ToExt(terms[i]), Fin(0));
    } else {
      var head := terms[..last];
      ExtSumExtract(head, i);
      assert rest[..last] == head[i := 0];
      PlusAssociative(ToExt(terms[i]), ExtSum(head[i := 0]), ToExt(terms[last]));
    }
  }

  lemma PlusAssociative(a: Ext, b: Ext, c: Ext)
    ensures Plus(Plus(a, b), c) == Plus(a, Plus(b, c)) && Plus(a, b) == Plus(b, a)
  {
  }

  lemma {:induction false} ExtSumAppend(left: seq<int>, right: seq<int>)
    ensures ExtSum(left + right) == Plus(ExtSum(left), ExtSum(right))
  {
    if |right| == 0 {
      assert left + right == left;
    } else {
      ExtSumAppend(left, right[..|right| - 1]);
      assert (left + right)[..|left + right| - 1] == left + right[..|right| - 1];
    }
  }

  lemma {:induction false} ExtSumMonotone(low: seq<int>, high: seq<int>)
    requires |low| == |high|
    requires forall i :: 0 <= i < |low| ==> Le(ToExt(low[i]), ToExt(high[i]))
    ensures Le(ExtSum(low), ExtSum(high))
  {
    if |low| > 0 {
      ExtSumMonotone(low[..|low| - 1], high[..|high| - 1]);
    }
  }

  lemma {:induction false} ExtSumZero(terms: seq<int>)
    requires forall i :: 0 <= i < |terms| ==> terms[i] == 0
    ensures ExtSum(terms) == Fin(0)
  {
    if |terms| > 0 {
      ExtSumZero(terms[..|terms| - 1]);
    }
  }

  /** The no-saturation law for sums of any length: if every term is within its
      budget and the budgets total less than INF, the left-to-right saturating
      sum is the exact sum. */
  lemma {:induction false} FoldExact(terms: seq<int>, budgets: seq<nat>)
    requires |terms| == |budgets| && Total(budgets) < INF
    requires forall i :: 0 <= i < |terms| ==> Bounded(terms[i], budgets[i])
    ensures ToExt(Fold(terms)) == ExtSum(terms)
    ensures Bounded(Fold(terms), Total(budgets))
  {
    if |terms| > 0 {
      var last := |terms| - 1;
      FoldExact(terms[..last], budgets[..last]);
      AddExact(Fold(terms[..last]), terms[last], Total(budgets[..last]), budgets[last]);
    }
  }

  /** A minimum and the first position that attains it. */
  datatype MinArg = MinArg(value: int, index: nat)

  ghost predicate IsFirstMin(values: seq<int>, m: MinArg) {
    && m.index < |values|
    && values[m.index] == m.value
    && (forall i :: 0 <= i < |values| ==> m.value <= values[i])
    && (forall i :: 0 <= i < m.index ==> m.value < values[i])
  }

  /** The kernels' scan: an empty vector leaves the initial {INF, 0}. */
  function FirstMin(values: seq<int>): (m: MinArg)
    ensures |values| > 0 ==> IsFirstMin(values, m)
  {
    var last := |values| - 1;
    if last < 0 then MinArg(INF, 0)
    else if last == 0 then MinArg(values[0], 0)
    else
      var m := FirstMin(values[..last]);
      assert forall i :: 0 <= i < last ==> values[i] == values[..last][i];
      if values[last] < m.value then MinArg(values[last], last) else m
  }

  lemma FirstMinUnique(values: seq<int>, m: MinArg)
    requires IsFirstMin(values, m)
    ensures FirstMin(values) == m
  {
  }

  lemma FirstMinBounded(values: seq<int>, budget: nat)
    requires |values| > 0
    requires forall i :: 0 <= i < |values| ==> Bounded(values[i], budget)
    ensures Bounded(FirstMin(values).value, budget)
  {
  }
}
