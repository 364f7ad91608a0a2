/** The software cost kernels (software/pbqp/pbqp.cpp: SoftwareMin2, SoftwareMin3,
    SoftwareMin2Value, SoftwareCostAddVector, SoftwareMinplusProject, SoftwareMap3Project and
    their batches). A strided view is the sequence of the entries it selects. */
module Kernels {
  import opened Costs

  function Sums2(a: seq<int>, b: seq<int>): (sums: seq<int>)
    requires |a| == |b|
    ensures |sums| == |a|
  {
    seq(|a|, i requires 0 <= i < |a| => Add(a[i], b[i]))
  }

  function Sums3(a: seq<int>, b: seq<int>, c: seq<int>): (sums: seq<int>)
    requires |a| == |b| == |c|
    ensures |sums| == |a|
  {
    seq(|a|, i requires 0 <= i < |a| => Add(Add(a[i], b[i]), c[i]))
  }

  /** No addition of the pass is refused. */
  ghost predicate Accepted2(a: seq<int>, b: seq<int>)
    requires |a| == |b|
  {
    forall i :: 0 <= i < |a| ==> AddChecked(a[i], b[i]).Sum?
  }

  ghost predicate Accepted3(a: seq<int>, b: seq<int>, c: seq<int>)
    requires |a| == |b| == |c|
  {
    forall i :: 0 <= i < |a| ==> AddChecked(a[i], b[i]).Sum? && AddChecked(Add(a[i], b[i]), c[i]).Sum?
  }

  /** The minimum of the first entries extends by one entry. */
  lemma FirstMinStep(values: seq<int>, i: nat, m: MinArg)
    requires i < |values| && m == FirstMin(values[..i])
    ensures FirstMin(values[..i + 1])
            == if i == 0 || values[i] < m.value then MinArg(values[i], i) else m
  {
    assert values[..i + 1][..i] == values[..i];
  }

  method Min2(a: seq<int>, b: seq<int>) returns (ok: bool, m: MinArg)
    requires |a| == |b|
    ensures ok <==> Accepted2(a, b)
    ensures ok ==> m == FirstMin(Sums2(a, b))
  {
    ghost var sums := Sums2(a, b);
    m := MinArg(INF, 0);
    for i := 0 to |a|
      invariant forall j :: 0 <= j < i ==> AddChecked(a[j], b[j]).Sum?
      invariant m == FirstMin(sums[..i])
    {
      var sum := AddChecked(a[i], b[i]);
      if sum.Rejected? {
        return false, m;
      }
      FirstMinStep(sums, i, m);
      if i == 0 || sum.value < m.value {
        m := MinArg(sum.value, i);
      }
    }
    assert sums[..|a|] == sums;
    ok := true;
  }

  method Min3(a: seq<int>, b: seq<int>, c: seq<int>) returns (ok: bool, m: MinArg)
    requires |a| == |b| == |c|
    ensures ok <==> Accepted3(a, b, c)
    ensures ok ==> m == FirstMin(Sums3(a, b, c))
  {
    ghost var sums := Sums3(a, b, c);
    m := MinArg(INF, 0);
    for i := 0 to |a|
      invariant forall j :: 0 <= j < i ==>
                  AddChecked(a[j], b[j]).Sum? && AddChecked(Add(a[j], b[j]), c[j]).Sum?
      invariant m == FirstMin(sums[..i])
    {
      var sum := AddChecked(a[i], b[i]);
      if sum.Rejected? {
        return false, m;
      }
      var value := AddChecked(sum.value, c[i]);
      if value.Rejected? {
        return false, m;
      }
      FirstMinStep(sums, i, m);
      if i == 0 || value.value < m.value {
        m := MinArg(value.value, i);
      }
    }
    assert sums[..|a|] == sums;
    ok := true;
  }

  method Min2Value(a: seq<int>, b: seq<int>) returns (ok: bool, value: int)
    requires |a| == |b|
    ensures ok <==> Accepted2(a, b)
    ensures ok ==> value == FirstMin(Sums2(a, b)).value
  {
    ghost var sums := Sums2(a, b);
    value := INF;
    for i := 0 to |a|
      invariant forall j :: 0 <= j < i ==> AddChecked(a[j], b[j]).Sum?
      invariant value == FirstMin(sums[..i]).value
    {
      var sum := AddChecked(a[i], b[i]);
      if sum.Rejected? {
        return false, value;
      }
      FirstMinStep(sums, i, FirstMin(sums[..i]));
      if i == 0 || sum.value < value {
        value := sum.value;
      }
    }
    assert sums[..|a|] == sums;
    ok := true;
  }

  /** Checks every addition before storing any. */
  method CostAddVector(a: seq<int>, b: seq<int>) returns (ok: bool, result: seq<int>)
    ensures ok <==> |a| == |b| && Accepted2(a, b)
    ensures ok ==> result == Sums2(a, b)
  {
    result := [];
    if |a| != |b| {
      return false, [];
    }
    for i := 0 to |a|
      invariant forall j :: 0 <= j < i ==> AddChecked(a[j], b[j]).Sum?
    {
      if AddChecked(a[i], b[i]).Rejected? {
        return false, [];
      }
    }
    for i := 0 to |a|
      invariant result == Sums2(a, b)[..i]
    {
      result := result + [AddChecked(a[i], b[i]).value];
    }
    ok := true;
  }

  ghost predicate Rectangular(matrix: seq<seq<int>>, columns: nat) {
    forall i :: 0 <= i < |matrix| ==> |matrix[i]| == columns
  }

  function RowMins(matrix: seq<seq<int>>, vector: seq<int>): (mins: seq<int>)
    requires Rectangular(matrix, |vector|)
    ensures |mins| == |matrix|
  {
    seq(|matrix|, r requires 0 <= r < |matrix| => FirstMin(Sums2(matrix[r], vector)).value)
  }

  /** One minimum per row of matrix plus vector. */
  method MinplusProject(matrix: seq<seq<int>>, vector: seq<int>) returns (ok: bool, result: seq<int>)
    requires Rectangular(matrix, |vector|)
    ensures ok <==> forall r :: 0 <= r < |matrix| ==> Accepted2(matrix[r], vector)
    ensures ok ==> result == RowMins(matrix, vector)
  {
    result := [];
    for r := 0 to |matrix|
      invariant forall i :: 0 <= i < r ==> Accepted2(matrix[i], vector)
      invariant result == RowMins(matrix, vector)[..r]
    {
      var accepted, minimum := Min2Value(matrix[r], vector);
      if !accepted {
        return false, [];
      }
      result := result + [minimum];
    }
    ok := true;
  }

  datatype Job2 = Job2(a: seq<int>, b: seq<int>) {
    predicate Aligned() { |a| == |b| }
    function Minimum(): int { if Aligned() then FirstMin(Sums2(a, b)).value else INF }
    ghost predicate Accepted() { Aligned() && Accepted2(a, b) }
  }

  function Minima(jobs: seq<Job2>): (minima: seq<int>)
    ensures |minima| == |jobs|
    ensures forall t :: 0 <= t < |jobs| ==> minima[t] == jobs[t].Minimum()
  {
    seq(|jobs|, t requires 0 <= t < |jobs| => jobs[t].Minimum())
  }

  method Min2ValueBatch(jobs: seq<Job2>) returns (ok: bool, results: seq<int>)
    requires forall t :: 0 <= t < |jobs| ==> jobs[t].Aligned()
    ensures ok <==> forall t :: 0 <= t < |jobs| ==> jobs[t].Accepted()
    ensures ok ==> results == Minima(jobs)
  {
    results := [];
    for t := 0 to |jobs|
      invariant forall p :: 0 <= p < t ==> jobs[p].Accepted()
      invariant results == Minima(jobs)[..t]
    {
      var accepted, minimum := Min2Value(jobs[t].a, jobs[t].b);
      if !accepted {
        return false, [];
      }
      results := results + [minimum];
    }
    ok := true;
  }

  function RowArgMins2(unary: seq<int>, views: seq<seq<int>>): (mins: seq<MinArg>)
    requires Rectangular(views, |unary|)
    ensures |mins| == |views|
  {
    seq(|views|, r requires 0 <= r < |views| => FirstMin(Sums2(unary, views[r])))
  }

  ghost predicate RowsAccepted2(unary: seq<int>, views: seq<seq<int>>)
    requires Rectangular(views, |unary|)
  {
    forall r :: 0 <= r < |views| ==> Accepted2(unary, views[r])
  }

  /** One job per view, in order; stops at the first refusal. */
  method Min2Batch(unary: seq<int>, views: seq<seq<int>>) returns (ok: bool, result: seq<MinArg>)
    requires Rectangular(views, |unary|)
    ensures ok <==> RowsAccepted2(unary, views)
    ensures ok ==> result == RowArgMins2(unary, views)
  {
    result := [];
    for r := 0 to |views|
      invariant forall i :: 0 <= i < r ==> Accepted2(unary, views[i])
      invariant result == RowArgMins2(unary, views)[..r]
    {
      var accepted, m := Min2(unary, views[r]);
      if !accepted {
        return false, [];
      }
      result := result + [m];
    }
    ok := true;
  }

  function RowArgMins(unary: seq<int>, fixed: seq<int>, varying: seq<seq<int>>): (mins: seq<MinArg>)
    requires |unary| == |fixed| && Rectangular(varying, |unary|)
    ensures |mins| == |varying|
  {
    seq(|varying|, r requires 0 <= r < |varying| => FirstMin(Sums3(unary, fixed, varying[r])))
  }

  ghost predicate RowsAccepted3(unary: seq<int>, fixed: seq<int>, varying: seq<seq<int>>)
    requires |unary| == |fixed| && Rectangular(varying, |unary|)
  {
    forall r :: 0 <= r < |varying| ==> Accepted3(unary, fixed, varying[r])
  }

  /** One minimum and first index per row of the varying matrix. */
  method Map3Project(unary: seq<int>, fixed: seq<int>, varying: seq<seq<int>>)
    returns (ok: bool, result: seq<MinArg>)
    requires |unary| == |fixed| && Rectangular(varying, |unary|)
    ensures ok <==> RowsAccepted3(unary, fixed, varying)
    ensures ok ==> result == RowArgMins(unary, fixed, varying)
  {
    result := [];
    for r := 0 to |varying|
      invariant forall i :: 0 <= i < r ==> Accepted3(unary, fixed, varying[i])
      invariant result == RowArgMins(unary, fixed, varying)[..r]
    {
      var accepted, m := Min3(unary, fixed, varying[r]);
      if !accepted {
        return false, [];
      }
      result := result + [m];
    }
    ok := true;
  }

  ghost predicate AllAccepted3(unary: seq<int>, first: seq<seq<int>>, second: seq<seq<int>>)
    requires Rectangular(first, |unary|) && Rectangular(second, |unary|)
  {
    forall i :: 0 <= i < |first| ==> RowsAccepted3(unary, first[i], second)
  }

  /** One minimum per pair of views, those of the first `m` views of the first edge. */
  function PairArgMins(unary: seq<int>, first: seq<seq<int>>, second: seq<seq<int>>, m: nat):
    (mins: seq<MinArg>)
    requires m <= |first| && Rectangular(first, |unary|) && Rectangular(second, |unary|)
  {
    if m == 0 then []
    else PairArgMins(unary, first, second, m - 1) + RowArgMins(unary, first[m - 1], second)
  }

  /** The vector path: one job per view of the first edge, results side by side. */
  method Map3ProjectBatch(unary: seq<int>, first: seq<seq<int>>, second: seq<seq<int>>)
    returns (ok: bool, results: seq<MinArg>)
    requires Rectangular(first, |unary|) && Rectangular(second, |unary|)
    ensures ok <==> AllAccepted3(unary, first, second)
    ensures ok ==> results == PairArgMins(unary, first, second, |first|)
  {
    results := [];
    for i := 0 to |first|
      invariant forall p :: 0 <= p < i ==> RowsAccepted3(unary, first[p], second)
      invariant results == PairArgMins(unary, first, second, i)
    {
      var accepted, row := Map3Project(unary, first[i], second);
      if !accepted {
        return false, [];
      }
      results := results + row;
    }
    ok := true;
  }

  datatype Job3 = Job3(a: seq<int>, b: seq<int>, c: seq<int>) {
    predicate Aligned() { |a| == |b| == |c| }
    function Answer(): MinArg { if Aligned() then FirstMin(Sums3(a, b, c)) else MinArg(INF, 0) }
    ghost predicate Accepted() { Aligned() && Accepted3(a, b, c) }
  }

  function Answers(jobs: seq<Job3>): (answers: seq<MinArg>)
    ensures |answers| == |jobs|
    ensures forall t :: 0 <= t < |jobs| ==> answers[t] == jobs[t].Answer()
  {
    seq(|jobs|, t requires 0 <= t < |jobs| => jobs[t].Answer())
  }

  method Min3Batch(jobs: seq<Job3>) returns (ok: bool, results: seq<MinArg>)
    requires forall t :: 0 <= t < |jobs| ==> jobs[t].Aligned()
    ensures ok <==> forall t :: 0 <= t < |jobs| ==> jobs[t].Accepted()
    ensures ok ==> results == Answers(jobs)
  {
    results := [];
    for t := 0 to |jobs|
      invariant forall p :: 0 <= p < t ==> jobs[p].Accepted()
      invariant results == Answers(jobs)[..t]
    {
      var accepted, m := Min3(jobs[t].a, jobs[t].b, jobs[t].c);
      if !accepted {
        return false, [];
      }
      results := results + [m];
    }
    ok := true;
  }

  function RowJobs(unary: seq<int>, fixed: seq<int>, varying: seq<seq<int>>): (jobs: seq<Job3>)
    ensures |jobs| == |varying|
    ensures forall r :: 0 <= r < |varying| ==> jobs[r] == Job3(unary, fixed, varying[r])
  {
    seq(|varying|, r requires 0 <= r < |varying| => Job3(unary, fixed, varying[r]))
  }

  function PairJobs(unary: seq<int>, first: seq<seq<int>>, second: seq<seq<int>>, m: nat): seq<Job3>
    requires m <= |first|
  {
    if m == 0 then [] else PairJobs(unary, first, second, m - 1) + RowJobs(unary, first[m - 1], second)
  }

  ghost predicate JobsAccepted(jobs: seq<Job3>) {
    forall t :: 0 <= t < |jobs| ==> jobs[t].Accepted()
  }

  lemma RowJobsMatch(unary: seq<int>, fixed: seq<int>, varying: seq<seq<int>>)
    requires |unary| == |fixed| && Rectangular(varying, |unary|)
    ensures JobsAccepted(RowJobs(unary, fixed, varying)) <==> RowsAccepted3(unary, fixed, varying)
    ensures Answers(RowJobs(unary, fixed, varying)) == RowArgMins(unary, fixed, varying)
  {
    var jobs := RowJobs(unary, fixed, varying);
    if JobsAccepted(jobs) {
      forall r | 0 <= r < |varying| ensures Accepted3(unary, fixed, varying[r]) {
        assert jobs[r].Accepted();
      }
    }
  }

  /** A job per pair asks for the same minima as a vector job per view of the first edge. */
  lemma {:induction false} PairJobsAnswers(unary: seq<int>, first: seq<seq<int>>,
                                           second: seq<seq<int>>, m: nat)
    requires m <= |first| && Rectangular(first, |unary|) && Rectangular(second, |unary|)
    ensures Answers(PairJobs(unary, first, second, m)) == PairArgMins(unary, first, second, m)
  {
    if m > 0 {
      PairJobsAnswers(unary, first, second, m - 1);
      RowJobsMatch(unary, first[m - 1], second);
      AppendJobs(PairJobs(unary, first, second, m - 1), RowJobs(unary, first[m - 1], second));
    }
  }

  /** And it is refused on the same inputs. */
  lemma {:induction false} PairJobsAccepted(unary: seq<int>, first: seq<seq<int>>,
                                            second: seq<seq<int>>, m: nat)
    requires m <= |first| && Rectangular(first, |unary|) && Rectangular(second, |unary|)
    ensures JobsAccepted(PairJobs(unary, first, second, m))
            <==> forall i :: 0 <= i < m ==> RowsAccepted3(unary, first[i], second)
  {
    if m > 0 {
      PairJobsAccepted(unary, first, second, m - 1);
      RowJobsMatch(unary, first[m - 1], second);
      AppendJobs(PairJobs(unary, first, second, m - 1), RowJobs(unary, first[m - 1], second));
    }
  }

  lemma AppendJobs(before: seq<Job3>, row: seq<Job3>)
    ensures JobsAccepted(before + row) <==> JobsAccepted(before) && JobsAccepted(row)
    ensures Answers(before + row) == Answers(before) + Answers(row)
  {
    var all := before + row;
    if JobsAccepted(all) {
      forall t | 0 <= t < |before| ensures before[t].Accepted() {
        assert all[t].Accepted();
      }
      forall t | 0 <= t < |row| ensures row[t].Accepted() {
        assert all[|before| + t].Accepted();
      }
    }
  }

  /** The scalar path: one Min3 job per pair, in row-major order. */
  method Min3Pairs(unary: seq<int>, first: seq<seq<int>>, second: seq<seq<int>>)
    returns (ok: bool, results: seq<MinArg>)
    requires Rectangular(first, |unary|) && Rectangular(second, |unary|)
    ensures ok <==> AllAccepted3(unary, first, second)
    ensures ok ==> results == PairArgMins(unary, first, second, |first|)
  {
    var jobs: seq<Job3> := [];
    for i := 0 to |first|
      invariant jobs == PairJobs(unary, first, second, i)
      invariant forall t :: 0 <= t < |jobs| ==> jobs[t].Aligned()
    {
      ghost var before := jobs;
      for j := 0 to |second|
        invariant jobs == before + RowJobs(unary, first[i], second)[..j]
        invariant forall t :: 0 <= t < |jobs| ==> jobs[t].Aligned()
      {
        jobs := jobs + [Job3(unary, first[i], second[j])];
      }
      assert RowJobs(unary, first[i], second)[..|second|] == RowJobs(unary, first[i], second);
    }
    PairJobsAnswers(unary, first, second, |first|);
    PairJobsAccepted(unary, first, second, |first|);
    ok, results := Min3Batch(jobs);
  }
}
