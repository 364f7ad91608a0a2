/** The device's project/add kernel (tools/pbqp_model_kernel.cpp: project_add_batch, submit_batch;
    pcaalib/src/systemc_device.cpp: submit_batch, wait): stage the operands, send two commands per
    job as one ordered batch, read the scores back. */
module DeviceKernel {
  import opened Basics
  import opened Costs
  import opened Kernels
  import opened GuestMemory
  import opened Commands
  import opened Codec
  import opened Streams
  import opened Semantics
  import opened Batches
  import opened Executor
  import opened Meters
  import opened Transfers
  import opened L2Engine
  import opened Devices
  import opened GuestStaging
  import opened VectorRuns
  import opened StreamBatches
  import opened ProjectJobs
  import opened ProjectAdd
  import opened KernelPlans

  // ------------------------------------------------------------------ staged jobs

  /** Job `j` has its own matrix and result blocks and shares the blocks of equal views. */
  ghost predicate JobStaged(h: seq<int>, job: Job, j: nat, q: Placed, blocks: seq<Block>, cache: map<HostView, nat>,
                            m: Memory) {
    && q.rows == job.matrix.rows && q.columns == job.matrix.columns && q.length == job.unary.length
    && job.Scores() in cache && cache[job.Scores()] == q.scores
    && job.unary in cache && cache[job.unary] == q.unary
    && Block(q.matrix, 4 * Offset(q.rows, q.columns), ForMatrix(j)) in blocks
    && Block(q.temporary, 4 * q.rows, ForProjection(j)) in blocks
    && HoldsRows(m, q.matrix, MatrixValues(h, job.matrix), q.columns)
  }

  ghost predicate JobsStaged(h: seq<int>, jobs: seq<Job>, qs: seq<Placed>, blocks: seq<Block>,
                             cache: map<HostView, nat>, m: Memory) {
    |qs| <= |jobs| && forall j {:trigger qs[j]} :: 0 <= j < |qs| ==> JobStaged(h, jobs[j], j, qs[j], blocks, cache, m)
  }

  lemma StagedGrows(h: seq<int>, jobs: seq<Job>, qs: seq<Placed>, blocks: seq<Block>, cache: map<HostView, nat>,
                    next: nat, m: Memory, blocks': seq<Block>, cache': map<HostView, nat>, next': nat, m': Memory)
    requires JobsStaged(h, jobs, qs, blocks, cache, m) && Chained(blocks, next)
    requires Grew(blocks, cache, next, m, blocks', cache', next', m')
    ensures JobsStaged(h, jobs, qs, blocks', cache', m')
  {
    forall j | 0 <= j < |qs| ensures JobStaged(h, jobs[j], j, qs[j], blocks', cache', m') {
      var q := qs[j];
      assert JobStaged(h, jobs[j], j, q, blocks, cache, m);
      RegionBelow(blocks, next, Block(q.matrix, 4 * Offset(q.rows, q.columns), ForMatrix(j)));
      HoldsRowsBelow(m, m', next, q.matrix, MatrixValues(h, jobs[j].matrix), q.columns);
      assert jobs[j].Scores() in cache' && jobs[j].unary in cache';
    }
  }

  lemma GrewTransitive(b0: seq<Block>, c0: map<HostView, nat>, n0: nat, m0: Memory, b1: seq<Block>,
                       c1: map<HostView, nat>, n1: nat, m1: Memory, b2: seq<Block>, c2: map<HostView, nat>, n2: nat,
                       m2: Memory)
    requires Grew(b0, c0, n0, m0, b1, c1, n1, m1) && Grew(b1, c1, n1, m1, b2, c2, n2, m2)
    ensures Grew(b0, c0, n0, m0, b2, c2, n2, m2)
  {
    SameBelowTransitive(m0, m1, m2, n0, n1);
    forall v | v in c0 ensures v in c2 && c2[v] == c0[v] {
      assert v in c1 && c1[v] == c0[v];
    }
  }

  // ---------------------------------------------------------- layout of the staging

  /** Two staged blocks with different uses. */
  lemma UsesApart(blocks: seq<Block>, next: nat, a: Block, b: Block)
    requires Chained(blocks, next) && a in blocks && b in blocks && a.use != b.use
    ensures Apart(a.start, a.size, b.start, b.size)
  {
    RegionsApart(blocks, next, a, b);
  }

  ghost predicate CacheBlocks(blocks: seq<Block>, cache: map<HostView, nat>) {
    forall v {:trigger cache[v]} :: v in cache ==> Block(cache[v], 4 * v.length, ForView(v)) in blocks
  }

  lemma PairLayout(h: seq<int>, jobs: seq<Job>, qs: seq<Placed>, blocks: seq<Block>, cache: map<HostView, nat>,
                   next: nat, m: Memory, j: nat, k: nat)
    requires JobsStaged(h, jobs, qs, blocks, cache, m) && Chained(blocks, next) && CacheBlocks(blocks, cache)
    requires Separate(jobs) && AllBuilt(qs) && j < |qs| && k < |qs|
    ensures PlacedApart2(qs[j], jobs[j].scores, qs[k], jobs[k].scores)
  {
    var a, b := qs[j], qs[k];
    assert JobStaged(h, jobs[j], j, a, blocks, cache, m) && JobStaged(h, jobs[k], k, b, blocks, cache, m);
    assert Built(a) && Built(b);
    BuiltShape(a);
    BuiltShape(b);
    var result := Block(a.temporary, 4 * a.rows, ForProjection(j));
    var scores := Block(a.scores, 4 * a.rows, ForView(jobs[j].Scores()));
    var matrix := Block(b.matrix, 4 * Offset(b.rows, b.columns), ForMatrix(k));
    var unary := Block(b.unary, 4 * b.length, ForView(jobs[k].unary));
    var others := Block(b.scores, 4 * b.rows, ForView(jobs[k].Scores()));
    assert cache[jobs[j].Scores()] == a.scores && cache[jobs[k].unary] == b.unary
           && cache[jobs[k].Scores()] == b.scores;
    assert Separate2(jobs[j], jobs[k]);
    UsesApart(blocks, next, result, matrix);
    UsesApart(blocks, next, result, unary);
    UsesApart(blocks, next, result, others);
    UsesApart(blocks, next, scores, matrix);
    InputIsNotScore(jobs[j], jobs[k]);
    UsesApart(blocks, next, scores, unary);
    if jobs[j].scores != jobs[k].scores {
      UsesApart(blocks, next, scores, others);
    }
  }

  /** A view a job reads is never the view of some job's scores. */
  lemma InputIsNotScore(a: Job, b: Job)
    requires Separate2(a, b) && a.matrix.rows > 0
    ensures b.unary != a.Scores()
  {
    assert ViewAt(a.Scores(), 0) == a.scores;
    assert b.unary.length > 0 ==> !Within(ViewAt(b.unary, 0), a.scores, a.matrix.rows);
  }

  lemma StagedLayout(h: seq<int>, jobs: seq<Job>, qs: seq<Placed>, blocks: seq<Block>, cache: map<HostView, nat>,
                     next: nat, m: Memory)
    requires JobsStaged(h, jobs, qs, blocks, cache, m) && Chained(blocks, next) && CacheBlocks(blocks, cache)
    requires Separate(jobs) && AllBuilt(qs) && |qs| == |jobs|
    ensures PlacedApart(qs, WorksOf(h, jobs))
  {
    var ws := WorksOf(h, jobs);
    forall j, k {:trigger PlacedApart2(qs[j], ws[j].key, qs[k], ws[k].key)} | 0 <= j < |qs| && 0 <= k < |qs|
      ensures PlacedApart2(qs[j], ws[j].key, qs[k], ws[k].key)
    {
      PairLayout(h, jobs, qs, blocks, cache, next, m, j, k);
      assert ws[j] == WorkOf(h, jobs[j]) && ws[k] == WorkOf(h, jobs[k]);
    }
  }

  lemma PlainRoom(m: Memory, size: nat, address: nat, n: nat)
    requires Plain(m, size) && address + n <= size
    ensures Storable(m, address, n)
  {
  }

  /** The staging holds the operands and scores of every job. */
  lemma StagedReady(h: seq<int>, jobs: seq<Job>, qs: seq<Placed>, blocks: seq<Block>, cache: map<HostView, nat>,
                    next: nat, m: Memory, size: nat)
    requires JobsStaged(h, jobs, qs, blocks, cache, m) && Chained(blocks, next) && CacheBlocks(blocks, cache)
    requires Plain(m, size) && next <= size && Separate(jobs) && |qs| == |jobs|
    requires forall v {:trigger cache[v]} :: v in cache ==> Holds(m, cache[v], ViewValues(h, v))
    ensures GuestReady(m, qs, WorksOf(h, jobs), TotalsOf(h, jobs))
  {
    var ws, t := WorksOf(h, jobs), TotalsOf(h, jobs);
    forall j | 0 <= j < |qs| ensures GuestHas(m, qs[j], ws[j], t) {
      var q := qs[j];
      assert JobStaged(h, jobs[j], j, q, blocks, cache, m);
      assert ws[j] == WorkOf(h, jobs[j]);
      assert cache[jobs[j].Scores()] == q.scores && cache[jobs[j].unary] == q.unary;
      TotalsHave(h, jobs, j);
      RegionBelow(blocks, next, Block(q.temporary, 4 * q.rows, ForProjection(j)));
      RegionBelow(blocks, next, Block(q.scores, 4 * q.rows, ForView(jobs[j].Scores())));
      PlainRoom(m, size, q.temporary, 4 * q.rows);
      PlainRoom(m, size, q.scores, 4 * q.rows);
    }
  }

  // ------------------------------------------------------------------- submission

  /** Nothing of a contiguous output meets a range apart from it. */
  lemma {:induction false} ContiguousMisses(p: Shape, begin: nat, end: nat, n: nat)
    requires Contiguous(p) && n <= p.rows && begin <= end && Apart(p.base, 4 * p.rows, begin, end - begin)
    ensures !Hits(p, begin, end, n)
  {
    if n > 0 {
      ContiguousMisses(p, begin, end, n - 1);
      ContiguousSlot(p, n - 1);
    }
  }

  /** The outputs of all staged jobs are apart from the range. */
  ghost predicate JobsApart(qs: seq<Placed>, start: nat, size: nat) {
    forall j {:trigger qs[j]} :: 0 <= j < |qs| ==>
      Apart(qs[j].temporary, 4 * qs[j].rows, start, size) && Apart(qs[j].scores, 4 * qs[j].rows, start, size)
  }

  lemma JobMisses(q: Placed, g: Guard)
    requires Built(q) && q.temporary != q.scores && g.stream <= g.end && g.descriptor <= g.descriptorEnd
    requires Apart(q.temporary, 4 * q.rows, g.stream, g.end - g.stream)
    requires Apart(q.scores, 4 * q.rows, g.stream, g.end - g.stream)
    requires Apart(q.temporary, 4 * q.rows, g.descriptor, g.descriptorEnd - g.descriptor)
    requires Apart(q.scores, 4 * q.rows, g.descriptor, g.descriptorEnd - g.descriptor)
    ensures Misses(ProjectOf(q), g) && Misses(AddOf(q), g)
  {
    BuiltShape(q);
    var p, a := Lower(Sent(ProjectOf(q))), Lower(Sent(AddOf(q)));
    ContiguousMisses(p, g.stream, g.end, p.rows);
    ContiguousMisses(p, g.descriptor, g.descriptorEnd, p.rows);
    ContiguousMisses(a, g.stream, g.end, a.rows);
    ContiguousMisses(a, g.descriptor, g.descriptorEnd, a.rows);
  }

  lemma JobsMiss(qs: seq<Placed>, ws: seq<Work>, g: Guard)
    requires AllBuilt(qs) && PlacedApart(qs, ws) && g.stream <= g.end && g.descriptor <= g.descriptorEnd
    requires JobsApart(qs, g.stream, g.end - g.stream) && JobsApart(qs, g.descriptor, g.descriptorEnd - g.descriptor)
    ensures Primitives(CommandsOf(qs)) && AllMiss(CommandsOf(qs), g)
  {
    PrimitiveCommands(qs);
    var cs := CommandsOf(qs);
    forall i | 0 <= i < |cs| ensures Misses(cs[i], g) {
      var j := i / 2;
      CommandsAt(qs, j);
      assert PlacedApart2(qs[j], ws[j].key, qs[j], ws[j].key);
      BuiltShape(qs[j]);
      JobMisses(qs[j], g);
      assert i == 2 * j || i == 2 * j + 1;
    }
  }

  /** The parent command of a batch over these commands. */
  ghost predicate Parent(c: Command, cs: seq<Command>) {
    c.Batch? && Validate(c) == Fine && c.count == |cs| && c.childBytes == |EncodeAll(cs)|
  }

  /** Everything a submitted batch of staged jobs has in guest memory. */
  ghost predicate Submitted(m: Memory, c: Command, parent: nat, qs: seq<Placed>, ws: seq<Work>, t: Totals) {
    && AllBuilt(qs) && PlacedApart(qs, ws) && GuestReady(m, qs, ws, t) && Parent(c, CommandsOf(qs))
    && parent > 0 && parent + 32 <= UINT64_MAX && HasBytes(m, parent, Encode(c))
    && InStream(m, GuardOf(c, parent), CommandsOf(qs)) && Storable(m, c.result, 8)
    && JobsApart(qs, c.children, c.childBytes) && JobsApart(qs, parent, 32) && JobsApart(qs, c.result, 8)
    && Apart(c.result, 8, c.children, c.childBytes) && Apart(c.result, 8, parent, 32)
  }

  ghost predicate ScoresHold(m: Memory, qs: seq<Placed>, ws: seq<Work>, t: Totals) {
    |ws| == |qs| && forall j {:trigger qs[j]} :: 0 <= j < |qs| ==>
      ws[j].key in t && |t[ws[j].key]| == qs[j].rows && Holds(m, qs[j].scores, t[ws[j].key])
  }

  lemma StoredOutside(m: Memory, address: nat, bytes: seq<Byte>)
    ensures SameOutside(m, Stored(m, address, bytes), address, |bytes|)
  {
    var r := Stored(m, address, bytes);
    forall x | !(address <= x < address + |bytes|) ensures ByteAt(r, x) == ByteAt(m, x) {
      assert x in m.cells ==> ByteAt(r, x) == ByteAt(m, x);
    }
  }

  lemma RecordKeepsScores(m: Memory, address: nat, bytes: seq<Byte>, qs: seq<Placed>, ws: seq<Work>, t: Totals)
    requires GuestReady(m, qs, ws, t) && JobsApart(qs, address, |bytes|)
    ensures ScoresHold(Stored(m, address, bytes), qs, ws, t)
  {
    StoredOutside(m, address, bytes);
    forall j | 0 <= j < |qs|
      ensures ws[j].key in t && |t[ws[j].key]| == qs[j].rows
              && Holds(Stored(m, address, bytes), qs[j].scores, t[ws[j].key])
    {
      assert GuestHas(m, qs[j], ws[j], t);
      HoldsOutside(m, Stored(m, address, bytes), address, |bytes|, qs[j].scores, t[ws[j].key]);
    }
  }

  lemma ParentFetched(m: Memory, c: Command, parent: nat)
    requires c.Batch? && Validate(c) == Fine && parent > 0 && parent + 32 <= UINT64_MAX
    requires HasBytes(m, parent, Encode(c))
    ensures Fetch(m, parent, 64) == Some(Decoded(c, 32))
  {
    assert EncodedSize(c) == 32 && Canonical(c) == c;
    FetchSent(m, parent, 64, c);
  }

  /** Any device that follows the batch rules completes a submitted batch exactly when no addition
      of the jobs, in order, is refused, and then every score block holds its total. */
  lemma DeviceFolds(m: Memory, c: Command, parent: nat, qs: seq<Placed>, ws: seq<Work>, t: Totals, ok: bool,
                    after: Memory)
    requires Submitted(m, c, parent, qs, ws, t) && DeviceDone(m, parent, ok, after)
    ensures ok <==> FoldJobs(ws, t, 0).Some?
    ensures ok ==> ScoresHold(after, qs, ws, FoldJobs(ws, t, 0).value)
    ensures ok ==> Bytes(after, c.result, 8) == Completion(c.count, UINT32_MAX)
    ensures after.cells.Keys == m.cells.Keys && after.rom == m.rom
  {
    var g := GuardOf(c, parent);
    ParentFetched(m, c, parent);
    JobsMiss(qs, ws, g);
    BatchFolds(m, g, qs, ws, t);
    var run := Children(m, c.children, g, c.count);
    assert !Conflicts(c, parent);
    assert BatchDone(c, parent, m, ok, after);
    if ok {
      RecordKeepsScores(run.memory, c.result, Completion(c.count, UINT32_MAX), qs, ws, FoldJobs(ws, t, 0).value);
      RecordReadBack(run.memory, c.result, Completion(c.count, UINT32_MAX));
    }
  }

  // ---------------------------------------------------------------------- kernel

  lemma MatrixGrows(rows: seq<seq<int>>, columns: nat, b: Block, blocks: seq<Block>, cache: map<HostView, nat>,
                    next: nat, m: Memory, blocks': seq<Block>, cache': map<HostView, nat>, next': nat, m': Memory)
    requires Chained(blocks, next) && b in blocks && b.size == 4 * Offset(|rows|, columns)
    requires Rectangular(rows, columns) && HoldsRows(m, b.start, rows, columns)
    requires Grew(blocks, cache, next, m, blocks', cache', next', m')
    ensures b in blocks' && HoldsRows(m', b.start, rows, columns)
  {
    RegionBelow(blocks, next, b);
    HoldsRowsBelow(m, m', next, b.start, rows, columns);
  }

  /** Copies matrix and unary vector and reserves room for the projection, whichever of them fails. */
  method StageOperands(host: array<int>, job: Job, j: nat, area: Area)
    returns (ok: bool, matrix: nat, unary: nat, temporary: nat)
    requires area.Valid() && area.Mirrors(host[..]) && Int32s(host[..]) && Inside(host.Length, job)
    requires area.status == Staged
    modifies area
    ensures area.Valid() && area.Mirrors(host[..]) && (ok <==> area.status == Staged)
    ensures var l := MatrixReserved(area.limit, old(area.Account()), job.matrix.rows, job.matrix.columns);
            area.Account() == Reserved(area.limit, ViewReserved(area.limit, l, job.unary), 4 * job.matrix.rows)
    ensures Grew(old(area.blocks), old(area.cache), old(area.next), old(area.memory),
                 area.blocks, area.cache, area.next, area.memory)
    ensures ok ==> area.next <= area.size && job.unary in area.cache && area.cache[job.unary] == unary
    ensures ok ==> Block(matrix, 4 * Offset(job.matrix.rows, job.matrix.columns), ForMatrix(j)) in area.blocks
    ensures ok ==> Block(temporary, 4 * job.matrix.rows, ForProjection(j)) in area.blocks
    ensures ok ==> HoldsRows(area.memory, matrix, MatrixValues(host[..], job.matrix), job.matrix.columns)
  {
    ghost var b1, c1, n1, m1 := area.blocks, area.cache, area.next, area.memory;
    matrix := area.CopyMatrix(host, job.matrix, j);
    ghost var b2, c2, n2, m2 := area.blocks, area.cache, area.next, area.memory;
    unary := area.CopyView(host, job.unary);
    ghost var b3, c3, n3, m3 := area.blocks, area.cache, area.next, area.memory;
    GrewTransitive(b1, c1, n1, m1, b2, c2, n2, m2, b3, c3, n3, m3);
    temporary := area.Allocate(4 * job.matrix.rows, ForProjection(j));
    ghost var b4, c4, n4, m4 := area.blocks, area.cache, area.next, area.memory;
    GrewTransitive(b1, c1, n1, m1, b3, c3, n3, m3, b4, c4, n4, m4);
    MirrorsBelow(b3, n3, c3, host[..], m3, m4);
    ok := matrix != 0 && unary != 0 && temporary != 0;
    if ok {
      GrewTransitive(b2, c2, n2, m2, b3, c3, n3, m3, b4, c4, n4, m4);
      var b := Block(matrix, 4 * Offset(job.matrix.rows, job.matrix.columns), ForMatrix(j));
      MatrixGrows(MatrixValues(host[..], job.matrix), job.matrix.columns, b, b2, c2, n2, m2, b4, c4, n4, m4);
    }
  }

  /** Copies the scores and the operands of a job and reserves room for its projection. */
  method StageJob(host: array<int>, job: Job, j: nat, area: Area) returns (ok: bool, q: Placed)
    requires area.Valid() && area.Mirrors(host[..]) && Int32s(host[..]) && Inside(host.Length, job)
    requires area.status == Staged
    modifies area
    ensures area.Valid() && area.Mirrors(host[..]) && (ok <==> area.status == Staged)
    ensures area.Account() == JobReserved(area.limit, old(area.Account()), job)
    ensures Grew(old(area.blocks), old(area.cache), old(area.next), old(area.memory),
                 area.blocks, area.cache, area.next, area.memory)
    ensures ok ==> area.next <= area.size && q.Fits()
    ensures ok ==> JobStaged(host[..], job, j, q, area.blocks, area.cache, area.memory)
  {
    q := Placed(job.matrix.rows, job.matrix.columns, job.unary.length, 0, 0, 0, 0);
    ScoresInside(host.Length, job);
    ghost var b0, c0, n0, m0 := area.blocks, area.cache, area.next, area.memory;
    var scores := area.CopyView(host, job.Scores());
    if scores == 0 {
      return false, q;
    }
    ghost var b1, c1, n1, m1 := area.blocks, area.cache, area.next, area.memory;
    var matrix, unary, temporary;
    ok, matrix, unary, temporary := StageOperands(host, job, j, area);
    GrewTransitive(b0, c0, n0, m0, b1, c1, n1, m1, area.blocks, area.cache, area.next, area.memory);
    if ok {
      assert job.Scores() in area.cache && area.cache[job.Scores()] == scores;
      BlocksFit(area.blocks, area.cache, area.next, area.size, job, j, scores, matrix, unary, temporary);
      q := Placed(job.matrix.rows, job.matrix.columns, job.unary.length, matrix, unary, temporary, scores);
    }
  }

  lemma ScoresInside(n: nat, job: Job)
    requires Inside(n, job)
    ensures InsideView(n, job.Scores())
  {
    if job.matrix.rows > 0 {
      OffsetUnit(job.matrix.rows - 1);
    }
  }

  lemma BlocksFit(blocks: seq<Block>, cache: map<HostView, nat>, next: nat, size: nat, job: Job, j: nat, scores: nat,
                  matrix: nat, unary: nat, temporary: nat)
    requires Chained(blocks, next) && CacheBlocks(blocks, cache) && next <= size <= LARGEST
    requires job.Scores() in cache && cache[job.Scores()] == scores && job.unary in cache && cache[job.unary] == unary
    requires Block(matrix, 4 * Offset(job.matrix.rows, job.matrix.columns), ForMatrix(j)) in blocks
    requires Block(temporary, 4 * job.matrix.rows, ForProjection(j)) in blocks
    ensures scores <= LARGEST && unary <= LARGEST && matrix <= LARGEST && temporary <= LARGEST
  {
    RegionBelow(blocks, next, Block(scores, 4 * job.matrix.rows, ForView(job.Scores())));
    RegionBelow(blocks, next, Block(unary, 4 * job.unary.length, ForView(job.unary)));
    RegionBelow(blocks, next, Block(matrix, 4 * Offset(job.matrix.rows, job.matrix.columns), ForMatrix(j)));
    RegionBelow(blocks, next, Block(temporary, 4 * job.matrix.rows, ForProjection(j)));
  }

  // ---------------------------------------------------------------- staged batches

  /** The blocks of a job lie inside the memory and apart from each other. */
  lemma StagedLaid(h: seq<int>, job: Job, j: nat, q: Placed, blocks: seq<Block>, cache: map<HostView, nat>, next: nat,
                   m: Memory, size: nat)
    requires JobStaged(h, job, j, q, blocks, cache, m) && Chained(blocks, next) && CacheBlocks(blocks, cache)
    requires next <= size <= LARGEST && q.Fits()
    ensures Laid(q)
  {
    var result := Block(q.temporary, 4 * q.rows, ForProjection(j));
    var scores := Block(q.scores, 4 * q.rows, ForView(job.Scores()));
    var unary := Block(q.unary, 4 * q.length, ForView(job.unary));
    var matrix := Block(q.matrix, 4 * Offset(q.rows, q.columns), ForMatrix(j));
    assert cache[job.Scores()] == q.scores && cache[job.unary] == q.unary;
    RegionBelow(blocks, next, result);
    RegionBelow(blocks, next, scores);
    RegionBelow(blocks, next, unary);
    RegionBelow(blocks, next, matrix);
    UsesApart(blocks, next, result, matrix);
    UsesApart(blocks, next, result, unary);
    UsesApart(blocks, next, result, scores);
  }

  /** Copies and builds all jobs; a job whose projection is valid has a valid addition. */
  method StageJobs(host: array<int>, jobs: seq<Job>, area: Area) returns (status: KernelStatus, qs: seq<Placed>)
    requires area.Valid() && area.cache == map[] && area.status == Staged
    requires Int32s(host[..]) && AllInside(host.Length, jobs) && |jobs| > 0
    modifies area
    ensures area.Valid() && Plan(status, area.Account()) == StagePlan(area.limit, old(area.Account()), jobs, 0)
    ensures status == Succeeded ==> |qs| == |jobs| && AllBuilt(qs) && area.Mirrors(host[..])
    ensures status == Succeeded ==> area.next <= area.size && area.status == Staged
    ensures status == Succeeded ==> JobsStaged(host[..], jobs, qs, area.blocks, area.cache, area.memory)
  {
    qs := [];
    ghost var start := area.Account();
    for j := 0 to |jobs|
      invariant area.Valid() && area.Mirrors(host[..]) && |qs| == j && AllBuilt(qs)
                && (j > 0 ==> area.next <= area.size)
      invariant area.status == Staged
      invariant StagePlan(area.limit, area.Account(), jobs, j) == StagePlan(area.limit, start, jobs, 0)
      invariant JobsStaged(host[..], jobs, qs, area.blocks, area.cache, area.memory)
    {
      ghost var b, c, n, m := area.blocks, area.cache, area.next, area.memory;
      var ok, q := StageJob(host, jobs[j], j, area);
      if !ok {
        return StagingFailed(area.status), qs;
      }
      StagedGrows(host[..], jobs, qs, b, c, n, m, area.blocks, area.cache, area.next, area.memory);
      StagedLaid(host[..], jobs[j], j, q, area.blocks, area.cache, area.next, area.memory, area.size);
      BuildExactly(q, jobs[j]);
      var built := Validate(ProjectOf(q));
      if built != Fine {
        return NotBuilt(built), qs;
      }
      StagedAppend(host[..], jobs, qs, q, area.blocks, area.cache, area.memory);
      qs := qs + [q];
    }
    status := Succeeded;
  }

  lemma StagedAppend(h: seq<int>, jobs: seq<Job>, qs: seq<Placed>, q: Placed, blocks: seq<Block>,
                     cache: map<HostView, nat>, m: Memory)
    requires JobsStaged(h, jobs, qs, blocks, cache, m) && |qs| < |jobs|
    requires JobStaged(h, jobs[|qs|], |qs|, q, blocks, cache, m) && AllBuilt(qs) && Built(q)
    ensures JobsStaged(h, jobs, qs + [q], blocks, cache, m) && AllBuilt(qs + [q])
  {
    var all := qs + [q];
    forall j | 0 <= j < |all| ensures JobStaged(h, jobs[j], j, all[j], blocks, cache, m) {
      if j < |qs| {
        assert JobStaged(h, jobs[j], j, qs[j], blocks, cache, m);
      }
    }
  }

  // ----------------------------------------------------------------- submission

  ghost predicate JobBelow(q: Placed, end: nat) {
    && q.temporary + 4 * q.rows <= end && q.scores + 4 * q.rows <= end && q.unary + 4 * q.length <= end
    && q.matrix + 4 * Offset(q.rows, q.columns) <= end
  }

  ghost predicate JobsBelow(qs: seq<Placed>, end: nat) {
    forall j {:trigger qs[j]} :: 0 <= j < |qs| ==> JobBelow(qs[j], end)
  }

  lemma StagedBelow(h: seq<int>, jobs: seq<Job>, qs: seq<Placed>, blocks: seq<Block>, cache: map<HostView, nat>,
                    next: nat, m: Memory)
    requires JobsStaged(h, jobs, qs, blocks, cache, m) && Chained(blocks, next) && CacheBlocks(blocks, cache)
    ensures JobsBelow(qs, next)
  {
    forall j | 0 <= j < |qs| ensures JobBelow(qs[j], next) {
      var q := qs[j];
      assert JobStaged(h, jobs[j], j, q, blocks, cache, m);
      assert cache[jobs[j].Scores()] == q.scores && cache[jobs[j].unary] == q.unary;
      RegionBelow(blocks, next, Block(q.temporary, 4 * q.rows, ForProjection(j)));
      RegionBelow(blocks, next, Block(q.scores, 4 * q.rows, ForView(jobs[j].Scores())));
      RegionBelow(blocks, next, Block(q.unary, 4 * q.length, ForView(jobs[j].unary)));
      RegionBelow(blocks, next, Block(q.matrix, 4 * Offset(q.rows, q.columns), ForMatrix(j)));
    }
  }

  lemma ApartAbove(qs: seq<Placed>, end: nat, start: nat, size: nat)
    requires JobsBelow(qs, end) && end <= start
    ensures JobsApart(qs, start, size)
  {
    forall j | 0 <= j < |qs|
      ensures Apart(qs[j].temporary, 4 * qs[j].rows, start, size) && Apart(qs[j].scores, 4 * qs[j].rows, start, size)
    {
      assert JobBelow(qs[j], end);
    }
  }

  lemma ReadyBelow(m: Memory, r: Memory, end: nat, size: nat, qs: seq<Placed>, ws: seq<Work>, t: Totals)
    requires GuestReady(m, qs, ws, t) && JobsBelow(qs, end) && SameBelow(m, r, end) && Plain(r, size) && end <= size
    ensures GuestReady(r, qs, ws, t)
  {
    forall j | 0 <= j < |qs| ensures GuestHas(r, qs[j], ws[j], t) {
      var q, w := qs[j], ws[j];
      assert GuestHas(m, q, w, t) && JobBelow(q, end);
      HoldsRowsBelow(m, r, end, q.matrix, w.rows, w.columns);
      HoldsBelow(m, r, end, q.unary, w.unary);
      HoldsBelow(m, r, end, q.scores, t[w.key]);
      PlainRoom(r, size, q.temporary, 4 * q.rows);
      PlainRoom(r, size, q.scores, 4 * q.rows);
    }
  }

  /** Writes the stream, an initial record and the parent descriptor. */
  method WriteBatch(area: Area, child: nat, encoded: seq<Byte>, result: nat, parent: nat, descriptor: seq<Byte>,
                    ghost end: nat)
    requires area.Valid() && end <= child && child + |encoded| <= result && result + 8 <= parent
    requires parent + |descriptor| <= area.size
    modifies area`memory
    ensures area.Valid() && SameBelow(old(area.memory), area.memory, end)
    ensures HasBytes(area.memory, child, encoded) && HasBytes(area.memory, parent, descriptor)
  {
    ghost var m0 := area.memory;
    area.Write(child, encoded);
    ghost var m1 := area.memory;
    StoredBytes(m0, child, encoded);
    StoredBelow(m0, child, encoded);
    area.Write(result, Completion(0, UINT32_MAX));
    ghost var m2 := area.memory;
    StoredBelow(m1, result, Completion(0, UINT32_MAX));
    BytesBelow(m1, m2, result, child, encoded);
    SameBelowTransitive(m0, m1, m2, end, result);
    area.Write(parent, descriptor);
    StoredBytes(m2, parent, descriptor);
    StoredBelow(m2, parent, descriptor);
    BytesBelow(m2, area.memory, parent, child, encoded);
    SameBelowTransitive(m0, m2, area.memory, end, parent);
  }

  /** The encoded stream, as a buffer filled in place. */
  method EncodeCommands(cs: seq<Command>) returns (codec: CodecStatus, encoded: seq<Byte>)
    ensures codec == Fine ==> encoded == EncodeAll(cs) && |encoded| == SizeTo(cs, |cs|)
    ensures Measured(cs, codec) && (codec == Fine <==> Streamable(cs))
  {
    encoded := [];
    var total;
    codec, total := EncodedStreamSize(cs);
    if codec != Fine {
      return;
    }
    var buffer := new Byte[total](i => 0);
    codec, total := EncodeStream(cs, buffer);
    encoded := buffer[..];
  }

  /** Every part of the submission lies above what is staged. */
  lemma SubmittedIs(m0: Memory, m: Memory, next: nat, size: nat, qs: seq<Placed>, ws: seq<Work>, t: Totals,
                    c: Command, parent: nat)
    requires AllBuilt(qs) && PlacedApart(qs, ws) && GuestReady(m0, qs, ws, t) && JobsBelow(qs, next)
    requires SameBelow(m0, m, next) && Plain(m, size) && size <= LARGEST && FIRST <= next
    requires Parent(c, CommandsOf(qs)) && next <= c.children && c.children + c.childBytes <= c.result
    requires c.result + 8 <= parent && parent + 32 <= size
    requires HasBytes(m, c.children, EncodeAll(CommandsOf(qs))) && HasBytes(m, parent, Encode(c))
    ensures Submitted(m, c, parent, qs, ws, t)
  {
    ReadyBelow(m0, m, next, size, qs, ws, t);
    PlainRoom(m, size, c.result, 8);
    ApartAbove(qs, next, c.children, c.childBytes);
    ApartAbove(qs, next, c.result, 8);
    ApartAbove(qs, next, parent, 32);
  }

  /** Room for the stream, the record and the parent, one after another. */
  method ReserveBatch(area: Area, bytes: nat) returns (ok: bool, child: nat, result: nat, parent: nat)
    requires area.Valid() && area.status == Staged
    modifies area
    ensures area.Valid() && SameBelow(old(area.memory), area.memory, old(area.next))
    ensures var l := old(area.Account());
            area.Account() == Reserved(area.limit, Reserved(area.limit, Reserved(area.limit, l, bytes), 8), 32)
    ensures ok <==> area.status == Staged
    ensures ok ==> old(area.next) <= child && child + bytes <= result && result + 8 <= parent
                   && parent + 32 <= area.size
  {
    ghost var m0, end := area.memory, area.next;
    child := area.Allocate(bytes, ForBatch(0));
    ghost var m1 := area.memory;
    result := area.Allocate(8, ForBatch(1));
    ghost var m2 := area.memory;
    parent := area.Allocate(32, ForBatch(2));
    SameBelowTransitive(m0, m1, m2, end, end);
    SameBelowTransitive(m0, m2, area.memory, end, end);
    ok := child != 0 && result != 0 && parent != 0;
  }

  lemma ParentValid(child: nat, bytes: nat, count: nat, result: nat, jobs: nat, size: nat)
    requires bytes == JOB_BYTES * jobs <= UINT32_MAX && count == 2 * jobs > 0 && FIRST <= child
    requires child + bytes <= result && result + 8 <= size <= LARGEST
    ensures Validate(Batch(child, count, bytes, result)) == Fine
  {
    assert bytes == 16 * (5 * jobs);
  }

  /** Writes a batch into its room. The parent of a measured stream is always valid. */
  method PlaceBatch(area: Area, child: nat, encoded: seq<Byte>, result: nat, parent: nat, qs: seq<Placed>,
                    ghost m0: Memory, ghost end: nat, ghost ws: seq<Work>, ghost t: Totals)
    returns (c: Command)
    requires area.Valid() && |qs| > 0 && AllBuilt(qs) && PlacedApart(qs, ws)
    requires GuestReady(m0, qs, ws, t) && JobsBelow(qs, end) && FIRST <= end && SameBelow(m0, area.memory, end)
    requires encoded == EncodeAll(CommandsOf(qs)) && |encoded| == JOB_BYTES * |qs| <= UINT32_MAX
    requires end <= child && child + |encoded| <= result && result + 8 <= parent && parent + 32 <= area.size
    modifies area`memory
    ensures area.Valid() && Submitted(area.memory, c, parent, qs, ws, t)
  {
    ghost var m1 := area.memory;
    ParentValid(child, |encoded|, 2 * |qs|, result, |qs|, area.size);
    c := Batch(child, 2 * |qs|, |encoded|, result);
    SizeIsLength(c);
    WriteBatch(area, child, encoded, result, parent, Encode(c), end);
    SameBelowTransitive(m0, m1, area.memory, end, end);
    SubmittedIs(m0, area.memory, end, area.size, qs, ws, t, c, parent);
  }

  /** Encodes the commands and places stream, record and parent above the staging. */
  method Submit(area: Area, qs: seq<Placed>, ghost ws: seq<Work>, ghost t: Totals)
    returns (status: KernelStatus, c: Command, parent: nat)
    requires area.Valid() && area.next <= area.size && |qs| > 0 && AllBuilt(qs) && PlacedApart(qs, ws)
    requires GuestReady(area.memory, qs, ws, t) && JobsBelow(qs, area.next) && area.status == Staged
    modifies area
    ensures area.Valid() && status == SubmitStatus(area.limit, old(area.Account()), |qs|)
    ensures status == Succeeded ==> Submitted(area.memory, c, parent, qs, ws, t)
  {
    ghost var m0, end := area.memory, area.next;
    var cs := CommandsOf(qs);
    c := cs[0];
    var codec, encoded := EncodeCommands(cs);
    BuiltStream(qs, codec);
    CommandsSize(qs);
    if codec != Fine {
      return NotSubmitted(codec), c, 0;
    }
    var ok, child, result;
    ok, child, result, parent := ReserveBatch(area, |encoded|);
    if !ok {
      return NotSubmitted(NoSpace), c, 0;
    }
    c := PlaceBatch(area, child, encoded, result, parent, qs, m0, end, ws, t);
    status := Succeeded;
  }

  // ------------------------------------------------------------------ completion

  lemma CompletionReads(count: nat, failed: nat)
    requires count <= UINT32_MAX && failed <= UINT32_MAX
    ensures FromBytes(Completion(count, failed)[..4]) == count && FromBytes(Completion(count, failed)[4..]) == failed
  {
    Powers();
    FromToBytes(count, 4);
    FromToBytes(failed, 4);
    assert Completion(count, failed)[..4] == ToBytes(count, 4);
    assert Completion(count, failed)[4..] == ToBytes(failed, 4);
  }

  /** The device behind the doorbell: the functional one, or the tiled engine with a configuration
      whose registers lie above the staging area. */
  ghost predicate DeviceOk(engine: Option<Config>, area: Area) {
    engine.Some? ==> engine.value.Valid() && area.limit <= engine.value.mmioBase
  }

  lemma AreaAllowed(cfg: Config, m: Memory, size: nat)
    requires cfg.Valid() && Plain(m, size) && size <= cfg.mmioBase
    ensures MemoryAllowed(cfg, m)
  {
  }

  /** Runs a submitted descriptor on either device. */
  method Execute(engine: Option<Config>, m: Memory, parent: nat) returns (done: bool, after: Memory)
    requires engine.Some? ==> engine.value.Valid() && MemoryAllowed(engine.value, m)
    ensures DeviceDone(m, parent, done, after)
  {
    if engine.None? {
      var device := new L0(m);
      done := ExecuteL0(device, parent);
      after := device.memory;
    } else {
      MemoryAvoids(engine.value, m, parent);
      var device := new L2(engine.value, m);
      var ok := ExecuteL2(device, parent);
      done, after := ok, device.memory;
    }
  }

  /** Rings the doorbell and waits: success means DONE with a full record. */
  method RunBatch(engine: Option<Config>, area: Area, c: Command, parent: nat, qs: seq<Placed>, ghost ws: seq<Work>,
                  ghost t: Totals)
    returns (ok: bool)
    requires area.Valid() && DeviceOk(engine, area) && Submitted(area.memory, c, parent, qs, ws, t)
    modifies area
    ensures area.Valid()
    ensures ok <==> FoldJobs(ws, t, 0).Some?
    ensures ok ==> ScoresHold(area.memory, qs, ws, FoldJobs(ws, t, 0).value)
  {
    if engine.Some? {
      AreaAllowed(engine.value, area.memory, area.size);
    }
    var done, after := Execute(engine, area.memory, parent);
    DeviceFolds(area.memory, c, parent, qs, ws, t, done, after);
    area.memory := after;
    var record := Bytes(area.memory, c.result, 8);
    CompletionReads(c.count, UINT32_MAX);
    ok := done && FromBytes(record[..4]) == c.count && FromBytes(record[4..]) == UINT32_MAX;
  }

  /** The costs from `address` on. */
  function CostsAt(m: Memory, address: nat, n: nat): (values: seq<int>)
    ensures |values| == n
    ensures forall i {:trigger values[i]} :: 0 <= i < n ==> values[i] == ValueOf(CostAt(m, address + 4 * i))
  {
    seq(n, i requires 0 <= i => ValueOf(CostAt(m, address + 4 * i)))
  }

  lemma CostsHeld(m: Memory, address: nat, values: seq<int>)
    requires Holds(m, address, values)
    ensures CostsAt(m, address, |values|) == values
  {
    forall i | 0 <= i < |values| ensures CostsAt(m, address, |values|)[i] == values[i] {
      assert CostAt(m, address + 4 * i) == Some(values[i]);
    }
  }

  /** No job's scores contain the position. */
  ghost predicate NotScore(jobs: seq<Job>, x: nat) {
    forall j {:trigger jobs[j]} :: 0 <= j < |jobs| ==> !Within(x, jobs[j].scores, jobs[j].matrix.rows)
  }

  /** The first `n` jobs' scores are the totals, and nothing but scores changed. */
  ghost predicate ReadBackTo(h: seq<int>, r: seq<int>, jobs: seq<Job>, t: Totals, n: nat) {
    && |r| == |h| && n <= |jobs|
    && (forall j {:trigger jobs[j]} :: 0 <= j < n ==>
          jobs[j].scores in t && ViewValues(r, jobs[j].Scores()) == t[jobs[j].scores])
    && forall x {:trigger HostAt(r, x)} :: 0 <= x && NotScore(jobs, x) ==> HostAt(r, x) == HostAt(h, x)
  }

  lemma ReadBackNext(h: seq<int>, r: seq<int>, s: seq<int>, jobs: seq<Job>, t: Totals, n: nat)
    requires Separate(jobs) && ReadBackTo(h, r, jobs, t, n) && n < |jobs| && jobs[n].scores in t
    requires HostSame(r, s, jobs[n].scores, jobs[n].matrix.rows)
    requires ViewValues(s, jobs[n].Scores()) == t[jobs[n].scores]
    ensures ReadBackTo(h, s, jobs, t, n + 1)
  {
    forall j | 0 <= j < n + 1 ensures jobs[j].scores in t && ViewValues(s, jobs[j].Scores()) == t[jobs[j].scores] {
      assert Separate2(jobs[n], jobs[j]);
      if jobs[j].scores != jobs[n].scores {
        ScoresOutside(jobs[n].scores, jobs[n].matrix.rows, jobs[j].scores, jobs[j].matrix.rows);
        ViewSame(r, s, jobs[n].scores, jobs[n].matrix.rows, jobs[j].Scores());
      }
    }
    forall x {:trigger HostAt(s, x)} | 0 <= x && NotScore(jobs, x) ensures HostAt(s, x) == HostAt(h, x) {
      assert !Within(x, jobs[n].scores, jobs[n].matrix.rows);
      assert HostAt(r, x) == HostAt(h, x);
    }
  }

  /** Copies every score block back to the host. */
  method ReadScores(host: array<int>, jobs: seq<Job>, m: Memory, qs: seq<Placed>, ghost ws: seq<Work>, ghost t: Totals)
    requires Separate(jobs) && AllInside(host.Length, jobs) && ScoresHold(m, qs, ws, t) && |qs| == |jobs|
    requires forall j {:trigger jobs[j]} :: 0 <= j < |jobs| ==>
               ws[j].key == jobs[j].scores && qs[j].rows == jobs[j].matrix.rows
    modifies host
    ensures ReadBackTo(old(host[..]), host[..], jobs, t, |jobs|)
  {
    ghost var h := host[..];
    for j := 0 to |jobs|
      invariant ReadBackTo(h, host[..], jobs, t, j)
    {
      ghost var before := host[..];
      assert Inside(host.Length, jobs[j]) && qs[j].rows == jobs[j].matrix.rows;
      CostsHeld(m, qs[j].scores, t[ws[j].key]);
      WriteHost(host, jobs[j].scores, CostsAt(m, qs[j].scores, jobs[j].matrix.rows));
      ReadBackNext(h, before, host[..], jobs, t, j);
    }
  }

  /** What the device kernel reports and leaves on the host: the status that shapes, room and the
      fold of the jobs decide; on success that fold; otherwise the host as it was. */
  ghost predicate KernelDone(h: seq<int>, r: seq<int>, jobs: seq<Job>, limit: nat, status: KernelStatus) {
    var final := FoldJobs(WorksOf(h, jobs), TotalsOf(h, jobs), 0);
    && status == KernelOutcome(limit, jobs, final.Some?)
    && (if status == Succeeded then final.Some? && ReadBackTo(h, r, jobs, final.value, |jobs|) else r == h)
  }

  /** What staged jobs are worth to a submission. */
  lemma StagedWhole(h: seq<int>, jobs: seq<Job>, qs: seq<Placed>, blocks: seq<Block>, cache: map<HostView, nat>,
                    next: nat, m: Memory, size: nat)
    requires JobsStaged(h, jobs, qs, blocks, cache, m) && Chained(blocks, next) && CacheBlocks(blocks, cache)
    requires Plain(m, size) && next <= size && Separate(jobs) && |qs| == |jobs| && AllBuilt(qs)
    requires forall v {:trigger cache[v]} :: v in cache ==> Holds(m, cache[v], ViewValues(h, v))
    ensures PlacedApart(qs, WorksOf(h, jobs)) && GuestReady(m, qs, WorksOf(h, jobs), TotalsOf(h, jobs))
    ensures JobsBelow(qs, next)
    ensures forall j {:trigger qs[j]} :: 0 <= j < |qs| ==> qs[j].rows == jobs[j].matrix.rows
  {
    StagedLayout(h, jobs, qs, blocks, cache, next, m);
    StagedReady(h, jobs, qs, blocks, cache, next, m, size);
    StagedBelow(h, jobs, qs, blocks, cache, next, m);
    forall j | 0 <= j < |qs| ensures qs[j].rows == jobs[j].matrix.rows {
      assert JobStaged(h, jobs[j], j, qs[j], blocks, cache, m);
    }
  }

  /** Submission and completion of staged jobs. */
  method SubmitJobs(engine: Option<Config>, area: Area, qs: seq<Placed>, ghost ws: seq<Work>, ghost t: Totals)
    returns (status: KernelStatus)
    requires area.Valid() && DeviceOk(engine, area) && area.next <= area.size && |qs| > 0 && AllBuilt(qs)
    requires PlacedApart(qs, ws) && GuestReady(area.memory, qs, ws, t) && JobsBelow(qs, area.next)
    requires area.status == Staged
    modifies area
    ensures area.Valid()
    ensures var submitted := SubmitStatus(area.limit, old(area.Account()), |qs|);
            status == if submitted != Succeeded then submitted
                      else if FoldJobs(ws, t, 0).Some? then Succeeded else Refused
    ensures status == Succeeded ==>
              FoldJobs(ws, t, 0).Some? && ScoresHold(area.memory, qs, ws, FoldJobs(ws, t, 0).value)
  {
    var c, parent;
    status, c, parent := Submit(area, qs, ws, t);
    if status == Succeeded {
      var ok := RunBatch(engine, area, c, parent, qs, ws, t);
      status := if ok then Succeeded else Refused;
    }
  }

  /** Staging, submission and completion of a batch that is not empty. */
  method RunJobs(engine: Option<Config>, host: array<int>, jobs: seq<Job>, area: Area)
    returns (status: KernelStatus, qs: seq<Placed>)
    requires area.Valid() && DeviceOk(engine, area) && Int32s(host[..]) && AllInside(host.Length, jobs)
    requires Separate(jobs) && |jobs| > 0
    modifies area
    ensures area.Valid()
    ensures var ws, t := WorksOf(host[..], jobs), TotalsOf(host[..], jobs);
            && status == KernelOutcome(area.limit, jobs, FoldJobs(ws, t, 0).Some?)
            && (status == Succeeded ==> FoldJobs(ws, t, 0).Some? && |qs| == |jobs|
                                        && ScoresHold(area.memory, qs, ws, FoldJobs(ws, t, 0).value))
    ensures status == Succeeded ==>
              forall j {:trigger qs[j]} :: 0 <= j < |qs| ==> qs[j].rows == jobs[j].matrix.rows
  {
    area.BeginBatch();
    status, qs := StageJobs(host, jobs, area);
    ghost var h := host[..];
    ghost var ws, t := WorksOf(h, jobs), TotalsOf(h, jobs);
    OutcomeIs(area.limit, jobs, FoldJobs(ws, t, 0).Some?, Plan(status, area.Account()));
    if status == Succeeded {
      StagedWhole(h, jobs, qs, area.blocks, area.cache, area.next, area.memory, area.size);
      status := SubmitJobs(engine, area, qs, ws, t);
    }
  }

  /** The device kernel for a batch of project/add jobs. */
  method ProjectAddBatch(engine: Option<Config>, host: array<int>, jobs: seq<Job>, area: Area)
    returns (status: KernelStatus)
    requires area.Valid() && DeviceOk(engine, area) && Int32s(host[..]) && AllInside(host.Length, jobs)
             && Separate(jobs)
    modifies host, area
    ensures area.Valid() && KernelDone(old(host[..]), host[..], jobs, area.limit, status)
  {
    if |jobs| == 0 {
      return Succeeded;
    }
    ghost var h := host[..];
    ghost var ws := WorksOf(h, jobs);
    var qs;
    status, qs := RunJobs(engine, host, jobs, area);
    if status == Succeeded {
      forall j | 0 <= j < |jobs| ensures ws[j].key == jobs[j].scores && qs[j].rows == jobs[j].matrix.rows {
        assert ws[j] == WorkOf(h, jobs[j]);
      }
      ReadScores(host, jobs, area.memory, qs, ws, FoldJobs(ws, TotalsOf(h, jobs), 0).value);
    }
  }

  ghost predicate SameScores(a: seq<int>, b: seq<int>, jobs: seq<Job>) {
    forall j {:trigger jobs[j]} :: 0 <= j < |jobs| ==>
      ViewValues(a, jobs[j].Scores()) == ViewValues(b, jobs[j].Scores())
  }

  lemma BothFold(h: seq<int>, soft: seq<int>, hard: seq<int>, jobs: seq<Job>)
    requires FoldJobs(WorksOf(h, jobs), TotalsOf(h, jobs), 0).Some?
    requires HostReady(soft, jobs, WorksOf(h, jobs), FoldJobs(WorksOf(h, jobs), TotalsOf(h, jobs), 0).value)
    requires ReadBackTo(h, hard, jobs, FoldJobs(WorksOf(h, jobs), TotalsOf(h, jobs), 0).value, |jobs|)
    ensures SameScores(soft, hard, jobs)
  {
    var ws, final := WorksOf(h, jobs), FoldJobs(WorksOf(h, jobs), TotalsOf(h, jobs), 0).value;
    forall j | 0 <= j < |jobs| ensures ViewValues(soft, jobs[j].Scores()) == ViewValues(hard, jobs[j].Scores()) {
      assert ws[j] == WorkOf(h, jobs[j]);
      assert HostHas(soft, jobs[j], ws[j], final);
    }
  }

  /** The kernels agree, on the functional device and on the tiled engine: shapes and room alone
      decide whether the device runs the jobs; if it does, it succeeds exactly when the software
      accepts them, with the same scores. */
  method CompareKernels(engine: Option<Config>, values: seq<int>, jobs: seq<Job>, limit: nat)
    returns (accepted: bool, soft: seq<int>, status: KernelStatus, hard: seq<int>)
    requires Int32s(values) && Separate(jobs) && Scratch(|values|, jobs) && AllInside(|values|, jobs)
    requires engine.Some? ==> engine.value.Valid() && limit <= engine.value.mmioBase
    ensures status == KernelOutcome(limit, jobs, accepted)
    ensures if status == Succeeded then accepted && SameScores(soft, hard, jobs) else hard == values
  {
    var a := new int[|values|](i requires 0 <= i < |values| => values[i]);
    var b := new int[|values|](i requires 0 <= i < |values| => values[i]);
    var area := new Area(limit);
    assert a[..] == values && b[..] == values;
    accepted := SoftwareProjectAddBatch(a, jobs);
    status := ProjectAddBatch(engine, b, jobs, area);
    soft, hard := a[..], b[..];
    if status == Succeeded {
      BothFold(values, soft, hard, jobs);
    }
  }
}
