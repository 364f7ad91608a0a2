/** When the device's project/add kernel can stage, build and submit a batch
    (tools/pbqp_model_kernel.cpp: project_add_batch, submit_batch): the shapes of the jobs and the
    room in the staging area decide it, never the costs. */
module KernelPlans {
  import opened Basics
  import opened Costs
  import opened Kernels
  import opened GuestMemory
  import opened Commands
  import opened Codec
  import opened Streams
  import opened GuestStaging
  import opened ProjectJobs
  import opened ProjectAdd

  datatype KernelStatus =
    | Succeeded
    | StagingFailed(stage: Stage)
    | NotBuilt(codec: CodecStatus)
    | NotSubmitted(codec: CodecStatus)
    | Refused

  // ----------------------------------------------------------------- the plan

  /** Both commands of a job take 16-bit sizes, at least one row and column, and a unary vector as
      long as the rows. */
  function BuildStatus(job: Job): CodecStatus {
    if job.matrix.rows > UINT16_MAX || job.matrix.columns > UINT16_MAX then RangeError
    else if job.matrix.rows == 0 || job.matrix.columns == 0 || job.unary.length != job.matrix.columns
    then InvalidCommand else Fine
  }

  /** Scores first; then matrix, unary vector and projection, whichever of them fails. */
  function JobReserved(limit: nat, l: Ledger, job: Job): Ledger {
    var scores := ViewReserved(limit, l, job.Scores());
    if scores.status != Staged then scores
    else
      var matrix := MatrixReserved(limit, scores, job.matrix.rows, job.matrix.columns);
      Reserved(limit, ViewReserved(limit, matrix, job.unary), 4 * job.matrix.rows)
  }

  datatype Plan = Plan(status: KernelStatus, ledger: Ledger)

  /** Stages and builds the jobs from the `j`-th on, up to the first that cannot be. */
  function StagePlan(limit: nat, l: Ledger, jobs: seq<Job>, j: nat): Plan
    decreases |jobs| - j
  {
    if j >= |jobs| then Plan(Succeeded, l)
    else
      var next := JobReserved(limit, l, jobs[j]);
      if next.status != Staged then Plan(StagingFailed(next.status), next)
      else if BuildStatus(jobs[j]) != Fine then Plan(NotBuilt(BuildStatus(jobs[j])), next)
      else StagePlan(limit, next, jobs, j + 1)
  }

  /** The stream bytes of one job: a projection and an addition in place. */
  const JOB_BYTES: nat := 80

  /** Room for the stream, the completion record and the parent descriptor. */
  function SubmitReserved(limit: nat, l: Ledger, count: nat): Ledger {
    Reserved(limit, Reserved(limit, Reserved(limit, l, JOB_BYTES * count), 8), 32)
  }

  function SubmitStatus(limit: nat, l: Ledger, count: nat): KernelStatus {
    if JOB_BYTES * count > UINT32_MAX then NotSubmitted(RangeError)
    else if SubmitReserved(limit, l, count).status != Staged then NotSubmitted(NoSpace)
    else Succeeded
  }

  /** The status of a batch whose additions, in order, are all accepted or not. */
  function KernelOutcome(limit: nat, jobs: seq<Job>, accepted: bool): KernelStatus {
    if |jobs| == 0 then Succeeded
    else
      var plan := StagePlan(limit, Ledger(FIRST, {}, Staged), jobs, 0);
      if plan.status != Succeeded then plan.status
      else
        var submitted := SubmitStatus(limit, plan.ledger, |jobs|);
        if submitted != Succeeded then submitted else if accepted then Succeeded else Refused
  }

  lemma OutcomeIs(limit: nat, jobs: seq<Job>, accepted: bool, plan: Plan)
    requires |jobs| > 0 && plan == StagePlan(limit, Ledger(FIRST, {}, Staged), jobs, 0)
    ensures KernelOutcome(limit, jobs, accepted)
            == if plan.status != Succeeded then plan.status
               else if SubmitStatus(limit, plan.ledger, |jobs|) != Succeeded
               then SubmitStatus(limit, plan.ledger, |jobs|)
               else if accepted then Succeeded else Refused
  {
  }

  // ------------------------------------------------------------------ building

  lemma UnitEnd(base: nat, n: nat)
    requires base > 0 && base + 4 * n <= LARGEST && n > 0
    ensures Span(base, 1, n, 0, 1, 4) == Some(base + 4 * n)
  {
    OffsetUnit(n - 1);
    SpanExact(base, 1, n, 0, 1, 4);
  }

  lemma RowsEnd(base: nat, rows: nat, columns: nat)
    requires base > 0 && base + 4 * Offset(rows, columns) <= LARGEST && rows > 0 && columns > 0
    ensures Span(base, rows, columns, columns, 1, 4) == Some(base + 4 * Offset(rows, columns))
  {
    OffsetUnit(columns - 1);
    SpanExact(base, rows, columns, columns, 1, 4);
  }

  /** The staged operands of a job: inside the memory, and apart from what each command writes. */
  ghost predicate Laid(q: Placed) {
    && q.Fits() && q.matrix > 0 && q.unary > 0 && q.temporary > 0 && q.scores > 0
    && q.matrix + 4 * Offset(q.rows, q.columns) <= LARGEST && q.unary + 4 * q.length <= LARGEST
    && q.temporary + 4 * q.rows <= LARGEST && q.scores + 4 * q.rows <= LARGEST
    && Apart(q.temporary, 4 * q.rows, q.matrix, 4 * Offset(q.rows, q.columns))
    && Apart(q.temporary, 4 * q.rows, q.unary, 4 * q.length)
    && Apart(q.temporary, 4 * q.rows, q.scores, 4 * q.rows)
  }

  /** Staged operands leave only the shape of a job to decide whether its commands are valid. */
  lemma BuildExactly(q: Placed, job: Job)
    requires Laid(q)
    requires q.rows == job.matrix.rows && q.columns == job.matrix.columns && q.length == job.unary.length
    ensures Validate(ProjectOf(q)) == BuildStatus(job)
    ensures BuildStatus(job) == Fine ==> Validate(AddOf(q)) == Fine
  {
    if BuildStatus(job) == Fine {
      UnitEnd(q.unary, q.length);
      UnitEnd(q.temporary, q.rows);
      UnitEnd(q.scores, q.rows);
      RowsEnd(q.matrix, q.rows, q.columns);
    }
  }

  // ---------------------------------------------------------------- submission

  lemma CommandWidths(q: Placed)
    requires q.Fits()
    ensures EncodedSize(ProjectOf(q)) == 48 && EncodedSize(AddOf(q)) == 32
  {
  }

  ghost predicate PairWidths(cs: seq<Command>, i: nat) {
    i + 2 <= |cs| && EncodedSize(cs[i]) == 48 && EncodedSize(cs[i + 1]) == 32
  }

  lemma PairSize(cs: seq<Command>, i: nat)
    requires PairWidths(cs, i)
    ensures SizeTo(cs, i + 2) == SizeTo(cs, i) + JOB_BYTES
  {
    assert SizeTo(cs, i + 1) == SizeTo(cs, i) + EncodedSize(cs[i]);
  }

  lemma {:induction false} PairsSize(cs: seq<Command>, n: nat, j: nat)
    requires |cs| == 2 * n && j <= n
    requires forall k: nat {:trigger PairWidths(cs, 2 * k)} :: k < n ==> PairWidths(cs, 2 * k)
    ensures SizeTo(cs, 2 * j) == JOB_BYTES * j
  {
    if j > 0 {
      PairsSize(cs, n, j - 1);
      assert PairWidths(cs, 2 * (j - 1));
      PairSize(cs, 2 * (j - 1));
    }
  }

  lemma CommandsSize(qs: seq<Placed>)
    requires AllBuilt(qs)
    ensures SizeTo(CommandsOf(qs), |CommandsOf(qs)|) == JOB_BYTES * |qs|
  {
    forall k: nat {:trigger PairWidths(CommandsOf(qs), 2 * k)} | k < |qs| ensures PairWidths(CommandsOf(qs), 2 * k) {
      CommandsAt(qs, k);
      CommandWidths(qs[k]);
    }
    PairsSize(CommandsOf(qs), |qs|, |qs|);
  }

  /** Commands that were built fail to form a stream only by its length. */
  lemma BuiltStream(qs: seq<Placed>, codec: CodecStatus)
    requires AllBuilt(qs) && |qs| > 0 && Measured(CommandsOf(qs), codec)
    requires codec == Fine <==> Streamable(CommandsOf(qs))
    ensures codec == if JOB_BYTES * |qs| <= UINT32_MAX then Fine else RangeError
  {
    var cs := CommandsOf(qs);
    CommandsSize(qs);
    forall i | 0 <= i < |cs| ensures Usable(cs[i]) {
      CommandsAt(qs, i / 2);
      assert i == 2 * (i / 2) || i == 2 * (i / 2) + 1;
    }
  }

  // ---------------------------------------------------------------------- room

  /** Bytes that surely hold a job's operands: four blocks, each aligned. */
  function Need(job: Job): nat {
    4 * Offset(job.matrix.rows, job.matrix.columns) + 4 * job.unary.length + 8 * job.matrix.rows + 28
  }

  function NeedFrom(jobs: seq<Job>, j: nat): nat
    decreases |jobs| - j
  {
    if j >= |jobs| then 0 else Need(jobs[j]) + NeedFrom(jobs, j + 1)
  }

  predicate Below(limit: nat, end: nat) { end <= limit && end <= LARGEST }

  /** The staging area holds every job, the stream, the record and the descriptor. */
  predicate Spacious(limit: nat, jobs: seq<Job>) {
    Below(limit, FIRST + NeedFrom(jobs, 0) + JOB_BYTES * |jobs| + 61)
  }

  lemma ReservedRoom(limit: nat, l: Ledger, bytes: nat)
    requires Below(limit, l.next + bytes + 7)
    ensures var r := Reserved(limit, l, bytes); r.status == l.status && r.next <= l.next + bytes + 7
  {
  }

  lemma ViewRoom(limit: nat, l: Ledger, v: HostView)
    requires Below(limit, l.next + 4 * v.length + 7)
    ensures var r := ViewReserved(limit, l, v); r.status == l.status && r.next <= l.next + 4 * v.length + 7
  {
    ReservedRoom(limit, l, 4 * v.length);
  }

  lemma JobRoom(limit: nat, l: Ledger, job: Job)
    requires l.status == Staged && Below(limit, l.next + Need(job))
    ensures var r := JobReserved(limit, l, job); r.status == Staged && r.next <= l.next + Need(job)
  {
    var scores := ViewReserved(limit, l, job.Scores());
    ViewRoom(limit, l, job.Scores());
    ReservedRoom(limit, scores, 4 * Offset(job.matrix.rows, job.matrix.columns));
    var matrix := MatrixReserved(limit, scores, job.matrix.rows, job.matrix.columns);
    ViewRoom(limit, matrix, job.unary);
    ReservedRoom(limit, ViewReserved(limit, matrix, job.unary), 4 * job.matrix.rows);
  }

  /** The status of the first job from the `j`-th on that cannot be built. */
  function ShapeStatus(jobs: seq<Job>, j: nat): CodecStatus
    decreases |jobs| - j
  {
    if j >= |jobs| then Fine
    else if BuildStatus(jobs[j]) != Fine then BuildStatus(jobs[j]) else ShapeStatus(jobs, j + 1)
  }

  lemma {:induction false} StageRoom(limit: nat, l: Ledger, jobs: seq<Job>, j: nat)
    requires l.status == Staged && Below(limit, l.next + NeedFrom(jobs, j))
    ensures var plan := StagePlan(limit, l, jobs, j);
            && plan.status == (if ShapeStatus(jobs, j) == Fine then Succeeded else NotBuilt(ShapeStatus(jobs, j)))
            && plan.ledger.status == Staged && plan.ledger.next <= l.next + NeedFrom(jobs, j)
    decreases |jobs| - j
  {
    if j < |jobs| {
      JobRoom(limit, l, jobs[j]);
      if BuildStatus(jobs[j]) == Fine {
        StageRoom(limit, JobReserved(limit, l, jobs[j]), jobs, j + 1);
      }
    }
  }

  /** With room for the batch, the device path fails before the doorbell only on a job of the wrong
      shape or a stream of 2^32 bytes; otherwise it succeeds exactly when the additions do. */
  lemma SpaciousOutcome(limit: nat, jobs: seq<Job>, accepted: bool)
    requires |jobs| > 0 && Spacious(limit, jobs)
    ensures KernelOutcome(limit, jobs, accepted)
            == if ShapeStatus(jobs, 0) != Fine then NotBuilt(ShapeStatus(jobs, 0))
               else if JOB_BYTES * |jobs| > UINT32_MAX then NotSubmitted(RangeError)
               else if accepted then Succeeded else Refused
  {
    var start := Ledger(FIRST, {}, Staged);
    StageRoom(limit, start, jobs, 0);
    var l := StagePlan(limit, start, jobs, 0).ledger;
    ReservedRoom(limit, l, JOB_BYTES * |jobs|);
    var stream := Reserved(limit, l, JOB_BYTES * |jobs|);
    ReservedRoom(limit, stream, 8);
    ReservedRoom(limit, Reserved(limit, stream, 8), 32);
  }

  /** A job without rows has nothing to add, which the software accepts; no command describes it. */
  lemma RowlessJob(h: seq<int>, job: Job, limit: nat)
    requires job.matrix.rows == 0 && job.matrix.columns == job.unary.length <= UINT16_MAX && Spacious(limit, [job])
    ensures FoldJobs(WorksOf(h, [job]), TotalsOf(h, [job]), 0).Some?
    ensures KernelOutcome(limit, [job], true) == NotBuilt(InvalidCommand)
  {
    SpaciousOutcome(limit, [job], true);
    var w, t := WorkOf(h, job), TotalsOf(h, [job]);
    assert t[job.scores] == [];
    assert Addable(w, t);
  }
}
