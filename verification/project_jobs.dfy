/** Project/add jobs: what a batch of them computes (software/pbqp/pbqp.cpp:
    SoftwareProjectAddBatch), and what the two commands of a job do to staged operands. */
module ProjectJobs {
  import opened Basics
  import opened Costs
  import opened Kernels
  import opened GuestMemory
  import opened Commands
  import opened Codec
  import opened Semantics
  import opened GuestStaging
  import opened VectorRuns

  /** Adds the row minima of matrix plus unary to the scores; `temporary` and `scores` point at as
      many costs as the matrix has rows. */
  datatype Job = Job(matrix: HostMatrix, unary: HostView, temporary: nat, scores: nat) {
    function Scores(): HostView { HostView(scores, matrix.rows, 1) }
    function Temporary(): HostView { HostView(temporary, matrix.rows, 1) }
  }

  // ------------------------------------------------------------- specification

  /** The operands of a job and the score vector it adds to. */
  datatype Work = Work(key: nat, columns: nat, rows: seq<seq<int>>, unary: seq<int>)

  /** Every score vector under its address. */
  type Totals = map<nat, seq<int>>

  ghost predicate Addable(w: Work, t: Totals) {
    && w.columns == |w.unary| && Rectangular(w.rows, w.columns) && AllRowsAccepted(w.rows, w.unary)
    && w.key in t && |t[w.key]| == |w.rows| && Accepted2(RowMins(w.rows, w.unary), t[w.key])
  }

  ghost function Added(w: Work, t: Totals): Totals
    requires Addable(w, t)
  {
    t[w.key := Sums2(RowMins(w.rows, w.unary), t[w.key])]
  }

  /** The jobs from the `i`-th on, in order; None when an addition is refused. */
  ghost function FoldJobs(ws: seq<Work>, t: Totals, i: nat): Option<Totals>
    decreases |ws| - i
  {
    if i >= |ws| then Some(t)
    else if Addable(ws[i], t) then FoldJobs(ws, Added(ws[i], t), i + 1) else None
  }

  function WorkOf(h: seq<int>, job: Job): Work {
    Work(job.scores, job.matrix.columns, MatrixValues(h, job.matrix), ViewValues(h, job.unary))
  }

  function WorksOf(h: seq<int>, jobs: seq<Job>): (ws: seq<Work>)
    ensures |ws| == |jobs| && forall j {:trigger ws[j]} :: 0 <= j < |jobs| ==> ws[j] == WorkOf(h, jobs[j])
  {
    seq(|jobs|, j requires 0 <= j < |jobs| => WorkOf(h, jobs[j]))
  }

  function TotalsOf(h: seq<int>, jobs: seq<Job>): Totals {
    if |jobs| == 0 then map[]
    else
      var last := jobs[|jobs| - 1];
      TotalsOf(h, jobs[..|jobs| - 1])[last.scores := ViewValues(h, last.Scores())]
  }

  // ----------------------------------------------------------------- host layout

  predicate Within(x: nat, start: nat, n: nat) { start <= x < start + n }

  ghost predicate ViewOutside(v: HostView, start: nat, n: nat) {
    forall i {:trigger ViewAt(v, i)} :: 0 <= i < v.length ==> !Within(ViewAt(v, i), start, n)
  }

  ghost predicate MatrixOutside(v: HostMatrix, start: nat, n: nat) {
    forall r, i {:trigger MatrixAt(v, r, i)} :: 0 <= r < v.rows && 0 <= i < v.columns ==>
      !Within(MatrixAt(v, r, i), start, n)
  }

  /** Job `k` reads nothing of job `j`'s scores, and their scores are the same or apart. */
  ghost predicate Separate2(a: Job, b: Job) {
    && ViewOutside(b.unary, a.scores, a.matrix.rows) && MatrixOutside(b.matrix, a.scores, a.matrix.rows)
    && (if a.scores == b.scores then a.matrix.rows == b.matrix.rows
        else Apart(a.scores, a.matrix.rows, b.scores, b.matrix.rows))
  }

  /** Jobs that share a score vector agree on its length, and no input is a score. */
  ghost predicate Separate(jobs: seq<Job>) {
    forall j, k {:trigger Separate2(jobs[j], jobs[k])} :: 0 <= j < |jobs| && 0 <= k < |jobs| ==>
      Separate2(jobs[j], jobs[k])
  }

  predicate Inside(n: nat, job: Job) {
    && InsideMatrix(n, job.matrix) && InsideView(n, job.unary) && job.scores + job.matrix.rows <= n
    && job.matrix.rows <= UINT64_MAX && job.matrix.columns <= UINT64_MAX && job.unary.length <= UINT64_MAX
  }

  ghost predicate AllInside(n: nat, jobs: seq<Job>) {
    forall j {:trigger jobs[j]} :: 0 <= j < |jobs| ==> Inside(n, jobs[j])
  }

  lemma ScoreAt(h: seq<int>, start: nat, n: nat, i: nat)
    requires i < n
    ensures ViewValues(h, HostView(start, n, 1))[i] == HostAt(h, start + i)
  {
    OffsetUnit(i);
  }

  lemma {:induction false} TotalsHave(h: seq<int>, jobs: seq<Job>, j: nat)
    requires Separate(jobs) && j < |jobs|
    ensures jobs[j].scores in TotalsOf(h, jobs) && TotalsOf(h, jobs)[jobs[j].scores] == ViewValues(h, jobs[j].Scores())
    decreases |jobs|
  {
    var last := |jobs| - 1;
    assert Separate2(jobs[j], jobs[last]);
    if j < last && jobs[j].scores != jobs[last].scores {
      SeparatePrefix(jobs, last);
      TotalsHave(h, jobs[..last], j);
    }
  }

  lemma SeparatePrefix(jobs: seq<Job>, n: nat)
    requires Separate(jobs) && n <= |jobs|
    ensures Separate(jobs[..n])
  {
    forall j, k {:trigger Separate2(jobs[..n][j], jobs[..n][k])} | 0 <= j < n && 0 <= k < n
      ensures Separate2(jobs[..n][j], jobs[..n][k])
    {
      assert Separate2(jobs[j], jobs[k]);
    }
  }

  // ------------------------------------------------------------- software kernel

  /** Nothing of the host changed outside the range. */
  ghost predicate HostSame(h: seq<int>, r: seq<int>, start: nat, n: nat) {
    |r| == |h| && forall x {:trigger HostAt(r, x)} :: 0 <= x && !Within(x, start, n) ==> HostAt(r, x) == HostAt(h, x)
  }

  lemma ViewSame(h: seq<int>, r: seq<int>, start: nat, n: nat, v: HostView)
    requires HostSame(h, r, start, n) && ViewOutside(v, start, n)
    ensures ViewValues(r, v) == ViewValues(h, v)
  {
    forall i | 0 <= i < v.length ensures ViewValues(r, v)[i] == ViewValues(h, v)[i] {
      assert !Within(ViewAt(v, i), start, n);
    }
  }

  lemma MatrixSame(h: seq<int>, r: seq<int>, start: nat, n: nat, v: HostMatrix)
    requires HostSame(h, r, start, n) && MatrixOutside(v, start, n)
    ensures MatrixValues(r, v) == MatrixValues(h, v)
  {
    forall k | 0 <= k < v.rows ensures MatrixValues(r, v)[k] == MatrixValues(h, v)[k] {
      forall i | 0 <= i < v.columns ensures RowValues(r, v, k)[i] == RowValues(h, v, k)[i] {
        assert !Within(MatrixAt(v, k, i), start, n);
      }
    }
  }

  lemma ScoresOutside(start: nat, n: nat, from: nat, k: nat)
    requires Apart(start, n, from, k)
    ensures ViewOutside(HostView(from, k, 1), start, n)
  {
    forall i | 0 <= i < k ensures !Within(ViewAt(HostView(from, k, 1), i), start, n) {
      OffsetUnit(i);
    }
  }

  /** Stores consecutive costs. */
  method WriteHost(host: array<int>, start: nat, values: seq<int>)
    requires start + |values| <= host.Length
    modifies host
    ensures HostSame(old(host[..]), host[..], start, |values|)
    ensures ViewValues(host[..], HostView(start, |values|, 1)) == values
  {
    for i := 0 to |values|
      invariant forall x {:trigger host[x]} :: 0 <= x < host.Length ==>
                  host[x] == if start <= x < start + i then values[x - start] else old(host[x])
    {
      host[start + i] := values[i];
    }
    forall i | 0 <= i < |values| ensures ViewValues(host[..], HostView(start, |values|, 1))[i] == values[i] {
      ScoreAt(host[..], start, |values|, i);
    }
  }

  /** The temporary of a job is apart from all operands and scores. */
  ghost predicate Scratch2(a: Job, b: Job) {
    && ViewOutside(b.unary, a.temporary, a.matrix.rows) && MatrixOutside(b.matrix, a.temporary, a.matrix.rows)
    && Apart(a.temporary, a.matrix.rows, b.scores, b.matrix.rows)
  }

  ghost predicate Scratch(n: nat, jobs: seq<Job>) {
    && (forall j {:trigger jobs[j]} :: 0 <= j < |jobs| ==> jobs[j].temporary + jobs[j].matrix.rows <= n)
    && forall j, k {:trigger Scratch2(jobs[j], jobs[k])} :: 0 <= j < |jobs| && 0 <= k < |jobs| ==>
         Scratch2(jobs[j], jobs[k])
  }

  /** The host has the operands of `w` and the scores of `t`. */
  ghost predicate HostHas(h: seq<int>, job: Job, w: Work, t: Totals) {
    && w == WorkOf(h, job) && w.key in t && t[w.key] == ViewValues(h, job.Scores())
  }

  ghost predicate HostReady(h: seq<int>, jobs: seq<Job>, ws: seq<Work>, t: Totals) {
    |ws| == |jobs| && forall j {:trigger jobs[j]} :: 0 <= j < |jobs| ==> HostHas(h, jobs[j], ws[j], t)
  }

  lemma ReadyAtStart(h: seq<int>, jobs: seq<Job>)
    requires Separate(jobs)
    ensures HostReady(h, jobs, WorksOf(h, jobs), TotalsOf(h, jobs))
  {
    forall j | 0 <= j < |jobs| ensures HostHas(h, jobs[j], WorksOf(h, jobs)[j], TotalsOf(h, jobs)) {
      TotalsHave(h, jobs, j);
    }
  }

  /** Storing the new scores of job `i` moves the totals on. */
  lemma ReadyNext(h: seq<int>, r: seq<int>, jobs: seq<Job>, ws: seq<Work>, t: Totals, i: nat)
    requires Separate(jobs) && i < |jobs| && HostReady(h, jobs, ws, t) && Addable(ws[i], t)
    requires HostSame(h, r, jobs[i].scores, jobs[i].matrix.rows)
    requires ViewValues(r, jobs[i].Scores()) == Added(ws[i], t)[ws[i].key]
    ensures HostReady(r, jobs, ws, Added(ws[i], t))
  {
    forall j | 0 <= j < |jobs| ensures HostHas(r, jobs[j], ws[j], Added(ws[i], t)) {
      var start, n := jobs[i].scores, jobs[i].matrix.rows;
      assert HostHas(h, jobs[j], ws[j], t) && HostHas(h, jobs[i], ws[i], t);
      assert Separate2(jobs[i], jobs[j]);
      ViewSame(h, r, start, n, jobs[j].unary);
      MatrixSame(h, r, start, n, jobs[j].matrix);
      if jobs[j].scores != start {
        ScoresOutside(start, n, jobs[j].scores, jobs[j].matrix.rows);
        ViewSame(h, r, start, n, jobs[j].Scores());
      }
    }
  }

  lemma ReadyScratch(h: seq<int>, r: seq<int>, jobs: seq<Job>, ws: seq<Work>, t: Totals, i: nat)
    requires Scratch(|h|, jobs) && i < |jobs| && HostReady(h, jobs, ws, t)
    requires HostSame(h, r, jobs[i].temporary, jobs[i].matrix.rows)
    ensures HostReady(r, jobs, ws, t)
  {
    forall j | 0 <= j < |jobs| ensures HostHas(r, jobs[j], ws[j], t) {
      var start, n := jobs[i].temporary, jobs[i].matrix.rows;
      assert HostHas(h, jobs[j], ws[j], t);
      assert Scratch2(jobs[i], jobs[j]);
      ViewSame(h, r, start, n, jobs[j].unary);
      MatrixSame(h, r, start, n, jobs[j].matrix);
      ScoresOutside(start, n, jobs[j].scores, jobs[j].matrix.rows);
      ViewSame(h, r, start, n, jobs[j].Scores());
    }
  }

  /** One job on host memory. */
  method SoftwareJob(host: array<int>, jobs: seq<Job>, i: nat, ghost ws: seq<Work>, ghost t: Totals)
    returns (ok: bool)
    requires Separate(jobs) && Scratch(host.Length, jobs) && AllInside(host.Length, jobs) && i < |jobs|
    requires HostReady(host[..], jobs, ws, t)
    modifies host
    ensures ok <==> Addable(ws[i], t)
    ensures ok ==> HostReady(host[..], jobs, ws, Added(ws[i], t))
  {
    var job := jobs[i];
    assert HostHas(host[..], job, ws[i], t) && Inside(host.Length, job);
    if job.matrix.columns != job.unary.length {
      return false;
    }
    var temporary;
    ok, temporary := MinplusProject(MatrixValues(host[..], job.matrix), ViewValues(host[..], job.unary));
    if !ok {
      return;
    }
    ghost var h := host[..];
    WriteHost(host, job.temporary, temporary);
    ReadyScratch(h, host[..], jobs, ws, t, i);
    assert HostHas(host[..], job, ws[i], t);
    var sums;
    ok, sums := CostAddVector(ViewValues(host[..], job.Temporary()), ViewValues(host[..], job.Scores()));
    if ok {
      h := host[..];
      WriteHost(host, job.scores, sums);
      ReadyNext(h, host[..], jobs, ws, t, i);
    }
  }

  /** The software batch: jobs in order, each adding to its scores in place. */
  method SoftwareProjectAddBatch(host: array<int>, jobs: seq<Job>) returns (ok: bool)
    requires Separate(jobs) && Scratch(host.Length, jobs) && AllInside(host.Length, jobs)
    modifies host
    ensures var final := FoldJobs(WorksOf(old(host[..]), jobs), TotalsOf(old(host[..]), jobs), 0);
            && (ok <==> final.Some?)
            && (ok ==> HostReady(host[..], jobs, WorksOf(old(host[..]), jobs), final.value))
  {
    ghost var ws, start := WorksOf(host[..], jobs), TotalsOf(host[..], jobs);
    ghost var t := start;
    ReadyAtStart(host[..], jobs);
    for i := 0 to |jobs|
      invariant HostReady(host[..], jobs, ws, t) && FoldJobs(ws, t, i) == FoldJobs(ws, start, 0)
    {
      ok := SoftwareJob(host, jobs, i, ws, t);
      if !ok {
        return;
      }
      t := Added(ws[i], t);
    }
    ok := true;
  }
}
