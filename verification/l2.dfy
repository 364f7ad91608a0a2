/** The L2 engine's command execution (accelerator/src/l2_accelerator.cpp: primitive): computing
    in tiles and chunks, writing back, and leaving the memory the specification names. */
module L2Engine {
  import opened Basics
  import opened Costs
  import opened Kernels
  import opened GuestMemory
  import opened Commands
  import opened Semantics
  import opened Lanes
  import opened Transfers
  import opened Engine
  import opened Meters

  // ------------------------------------------------------------ vector addition

  ghost predicate Addition(c: Command) {
    c.AddVector? && c.first.length == c.output.length && c.second.length == c.output.length && !c.output.pair
  }

  /** Output `o` of a vector addition has a single element. */
  lemma AddedResult(c: Command, m: Memory, o: nat)
    requires Addition(c)
    ensures RowAccepted(Lower(c), m, o) <==> Element(Lower(c), m, o, 0).Some?
    ensures RowAccepted(Lower(c), m, o) ==>
              Result(Lower(c), m, o) == MinArg(Element(Lower(c), m, o, 0).value, 0)
  {
    var p := Lower(c);
    assert AcceptedTo(p, m, o, 0);
    assert Row(p, m, o, 0) == [];
    assert Row(p, m, o, 1) == [ValueOf(Element(p, m, o, 0))];
  }

  lemma AddedElement(c: Command, m: Memory, o: nat, a: int, b: int)
    requires Addition(c)
    requires CostAt(m, At(c.first.base, c.first.stride, o)) == Some(a)
    requires CostAt(m, At(c.second.base, c.second.stride, o)) == Some(b)
    ensures Element(Lower(c), m, o, 0) == if AddChecked(a, b).Sum? then Some(Add(a, b)) else None
  {
    AlongAt(c.first, 0, o);
    AlongAt(c.second, 0, o);
    ElementFrom(Lower(c), m, o, 0, a, b);
  }

  lemma AddedLost(c: Command, m: Memory, v: VectorView, o: nat)
    requires Addition(c) && (v == c.first || v == c.second) && CostAt(m, At(v.base, v.stride, o)).None?
    ensures !RowAccepted(Lower(c), m, o)
  {
    AlongAt(v, 0, o);
    ElementLost(Lower(c), m, o, 0);
    AddedResult(c, m, o);
  }

  ghost predicate IsSum(p: Shape, m: Memory, chunk: nat, sums: seq<int>, i: nat)
    requires i < |sums|
  {
    RowAccepted(p, m, chunk + i) && Result(p, m, chunk + i) == MinArg(sums[i], 0)
  }

  /** The sums are the results of the outputs from `chunk` on. */
  ghost predicate ChunkResults(p: Shape, m: Memory, chunk: nat, sums: seq<int>) {
    forall i {:trigger IsSum(p, m, chunk, sums, i)} :: 0 <= i < |sums| ==> IsSum(p, m, chunk, sums, i)
  }

  lemma AddedSums(c: Command, m: Memory, chunk: nat, x: Operands) returns (bad: nat)
    requires Addition(c) && x.Aligned() && x.third.None?
    requires LoadFine(m, c.first.base, c.first.stride, chunk, |x.left|)
    requires LoadFine(m, c.second.base, c.second.stride, chunk, |x.left|)
    requires x.left == Loaded(m, c.first.base, c.first.stride, chunk, |x.left|)
    requires x.right == Loaded(m, c.second.base, c.second.stride, chunk, |x.left|)
    ensures FineRange(x, 0, |x.left|) ==> ChunkResults(Lower(c), m, chunk, Sums(x))
    ensures !FineRange(x, 0, |x.left|) ==>
              chunk <= bad < chunk + |x.left| && !RowAccepted(Lower(c), m, bad)
  {
    var n := |x.left|;
    bad := chunk;
    if FineRange(x, 0, n) {
      forall i | 0 <= i < n ensures IsSum(Lower(c), m, chunk, Sums(x), i) {
        LoadedAt(m, c.first.base, c.first.stride, chunk, n, i);
        LoadedAt(m, c.second.base, c.second.stride, chunk, n, i);
        FineAt(x, n, i);
        AddedElement(c, m, chunk + i, x.left[i], x.right[i]);
        AddedResult(c, m, chunk + i);
      }
    } else {
      var i := NotFine(x, n);
      LoadedAt(m, c.first.base, c.first.stride, chunk, n, i);
      LoadedAt(m, c.second.base, c.second.stride, chunk, n, i);
      AddedElement(c, m, chunk + i, x.left[i], x.right[i]);
      AddedResult(c, m, chunk + i);
      bad := chunk + i;
    }
  }

  /** A vector that the engine cannot load halts one of the outputs. */
  lemma AddedHalts(cfg: Config, c: Command, m: Memory, v: VectorView, start: nat, count: nat) returns (bad: nat)
    requires Addition(c) && (v == c.first || v == c.second) && start + count <= c.output.length
    requires !(LoadFine(m, v.base, v.stride, start, count) && LoadAllowed(cfg, v.base, v.stride, start, count))
    ensures start <= bad < start + count && Halts(cfg, Lower(c), m, bad)
  {
    bad := start;
    if OperandsAllowed(cfg, Lower(c)) {
      AddedAllowed(cfg, Lower(c), v, start, count);
      var i := LoadRefused(m, v.base, v.stride, start, count);
      AddedLost(c, m, v, start + i);
      bad := start + i;
    }
  }

  /** Loads and adds one chunk before any of it is written back. */
  method VectorChunk(cfg: Config, m: Memory, c: Command, chunk: nat, cols: nat, lanes: array<MinArg>, meter: Meter,
                     ghost p: Shape)
    returns (ok: bool, sums: seq<int>, ghost bad: nat)
    requires cfg.Valid() && lanes.Length == cfg.lanes && Fair(meter.stats, cfg)
    requires Addition(c) && p == Lower(c) && chunk + cols <= c.output.length
    modifies lanes, meter
    ensures ok ==> |sums| == cols && ChunkResults(p, m, chunk, sums)
    ensures !ok ==> chunk <= bad < chunk + cols && Halts(cfg, p, m, bad)
    ensures Fair(meter.stats, cfg)
    ensures ok ==> Charged(old(meter.stats), meter.stats,
                           Combined(OperandBill(8 * cols), AddBill(false, cols, Groups(cols, cfg.lanes))))
  {
    var a, b;
    ghost var before := meter.stats;
    bad := chunk;
    ok, a := Load(cfg, m, c.first.base, c.first.stride, chunk, cols, meter);
    if !ok {
      bad := AddedHalts(cfg, c, m, c.first, chunk, cols);
      return false, [], bad;
    }
    ghost var one := meter.stats;
    ok, b := Load(cfg, m, c.second.base, c.second.stride, chunk, cols, meter);
    if !ok {
      bad := AddedHalts(cfg, c, m, c.second, chunk, cols);
      return false, [], bad;
    }
    ghost var two := meter.stats;
    OperandCharge(before, one, two, 4 * cols, 4 * cols);
    var x := Operands(a, b, None);
    bad := AddedSums(c, m, chunk, x);
    ok, sums := AddChunk(cfg, x, chunk, lanes, meter);
    if ok {
      ChargeBoth(before, two, meter.stats, OperandBill(8 * cols), AddBill(false, cols, Groups(cols, cfg.lanes)));
    }
  }

  // ---------------------------------------------------------------- write-back

  /** Outputs computed after `k` earlier ones were stored are those of the untouched memory. */
  lemma LaterKept(p: Shape, m: Memory, records: seq<seq<Byte>>, k: nat, o: nat)
    requires Sized(p, records) && Independent(p) && k <= o < p.rows
    ensures RowAccepted(p, StoreAll(p, m, records, k), o) <==> RowAccepted(p, m, o)
    ensures Result(p, StoreAll(p, m, records, k), o) == Result(p, m, o)
  {
    RowKept(p, m, records, k, o, p.columns);
  }

  ghost predicate IsResult(p: Shape, m: Memory, first: nat, results: seq<MinArg>, r: nat)
    requires r < |results|
  {
    RowAccepted(p, m, first + r) && results[r] == Result(p, m, first + r)
  }

  ghost predicate ResultsAt(p: Shape, m: Memory, first: nat, results: seq<MinArg>) {
    forall r {:trigger IsResult(p, m, first, results, r)} :: 0 <= r < |results| ==>
      IsResult(p, m, first, results, r)
  }

  lemma TileResults(p: Shape, m: Memory, records: seq<seq<Byte>>, tile: nat, states: seq<MinArg>,
                    now: Memory, check: RowCheck)
    requires Sized(p, records) && Independent(p) && tile + |states| <= p.rows
    requires now == StoreAll(p, m, records, tile) && IsRowCheck(check, p, now)
    requires TileState(check, tile, states, p.columns)
    ensures ResultsAt(p, m, tile, states)
  {
    forall r | 0 <= r < |states| ensures IsResult(p, m, tile, states, r) {
      assert check(tile + r, p.columns, states[r]);
      TileResult(p, m, records, tile, tile + r, states[r], now, check);
    }
  }

  lemma TileResult(p: Shape, m: Memory, records: seq<seq<Byte>>, tile: nat, o: nat, state: MinArg,
                   now: Memory, check: RowCheck)
    requires Sized(p, records) && Independent(p) && tile <= o < p.rows
    requires now == StoreAll(p, m, records, tile) && IsRowCheck(check, p, now) && check(o, p.columns, state)
    ensures RowAccepted(p, m, o) && state == Result(p, m, o)
  {
    assert Noted(o, p.columns, state);
    LaterKept(p, m, records, tile, o);
  }

  lemma AddedResults(p: Shape, m: Memory, records: seq<seq<Byte>>, chunk: nat, sums: seq<int>,
                     results: seq<MinArg>)
    requires Sized(p, records) && Independent(p) && chunk + |sums| <= p.rows && |results| == |sums|
    requires ChunkResults(p, StoreAll(p, m, records, chunk), chunk, sums)
    requires forall i {:trigger results[i]} :: 0 <= i < |results| ==> results[i] == MinArg(sums[i], 0)
    ensures ResultsAt(p, m, chunk, results)
  {
    var now := StoreAll(p, m, records, chunk);
    forall r | 0 <= r < |results| ensures IsResult(p, m, chunk, results, r) {
      assert IsSum(p, now, chunk, sums, r);
      LaterKept(p, m, records, chunk, chunk + r);
    }
  }

  /** The command fails, or the engine may not touch all of its addresses. */
  ghost predicate Fails(cfg: Config, p: Shape, m: Memory) { !Accepted(p, m) || !Avoids(cfg, p) }

  lemma BadOutput(cfg: Config, p: Shape, m: Memory, records: seq<seq<Byte>>, k: nat, bad: nat)
    requires Sized(p, records) && Independent(p) && k <= bad < p.rows
    requires Halts(cfg, p, StoreAll(p, m, records, k), bad)
    ensures Fails(cfg, p, m)
  {
    LaterKept(p, m, records, k, bad);
    if !RowAccepted(p, m, bad) {
      OutputRefused(p, m, bad);
    }
  }

  /** Writes one record back. */
  method WriteResult(cfg: Config, ghost p: Shape, ghost m: Memory, ghost records: seq<seq<Byte>>, now: Memory,
                     o: nat, address: nat, result: MinArg, pair: bool, meter: Meter, ghost stage: Progress)
    returns (ok: bool, after: Memory)
    requires cfg.Valid() && Fair(meter.stats, cfg) && records == Records(p, m) && o < p.rows
    requires IsProgress(stage, p, m, records) && stage(o, now)
    requires address == Slot(p, o) && pair == p.pair
    requires RowAccepted(p, m, o) && result == Result(p, m, o)
    modifies meter
    ensures ok ==> stage(o + 1, after)
    ensures !ok ==> Fails(cfg, p, m) && OnlyOutputs(p, m, after)
    ensures Fair(meter.stats, cfg)
    ensures ok ==> Charged(old(meter.stats), meter.stats, ResultBill(if pair then 8 else 4))
  {
    var bytes := Record(result, pair);
    ghost var written;
    assert Marked(o, now);
    ok, after, written := TransferWrite(cfg, now, address, bytes, meter);
    WritableKept(p, m, now, o);
    if ok {
      StageNext(p, m, records, o, now, after);
      assert Marked(o + 1, after);
    } else {
      StoreOnlyOutputs(p, m, now, o, bytes[..written]);
      if Allowed(cfg, address, OutWidth(p)) {
        OutputRefused(p, m, o);
      }
    }
  }

  /** The next of consecutive outputs. */
  method WriteNext(cfg: Config, ghost p: Shape, ghost m: Memory, ghost records: seq<seq<Byte>>, now: Memory,
                   out: OutputView, first: nat, results: seq<MinArg>, o: nat, meter: Meter, ghost stage: Progress,
                   ghost before: Stats, ghost width: nat)
    returns (ok: bool, after: Memory)
    requires cfg.Valid() && Fair(meter.stats, cfg) && records == Records(p, m)
    requires IsProgress(stage, p, m, records) && stage(o, now) && width == if out.pair then 8 else 4
    requires p.base == out.base && p.stride == out.stride && p.pair == out.pair
    requires first <= o < first + |results| <= p.rows && ResultsAt(p, m, first, results)
    requires Charged(before, meter.stats, ResultBill(Offset(o - first, width)))
    modifies meter
    ensures ok ==> stage(o + 1, after)
    ensures !ok ==> Fails(cfg, p, m) && OnlyOutputs(p, m, after)
    ensures Fair(meter.stats, cfg)
    ensures ok ==> Charged(before, meter.stats, ResultBill(Offset(o + 1 - first, width)))
  {
    ghost var current := meter.stats;
    OffsetSmall(width);
    assert IsResult(p, m, first, results, o - first);
    var address := OutputAddress(out, o, p);
    ok, after := WriteResult(cfg, p, m, records, now, o, address, results[o - first], out.pair, meter, stage);
    if ok {
      ResultCharge(before, current, meter.stats, o - first, 1, width);
    }
  }

  /** Stores the results of consecutive outputs. */
  method WriteResults(cfg: Config, ghost p: Shape, ghost m: Memory, ghost records: seq<seq<Byte>>, now: Memory,
                      out: OutputView, first: nat, results: seq<MinArg>, last: nat, meter: Meter, ghost stage: Progress)
    returns (ok: bool, after: Memory)
    requires cfg.Valid() && Fair(meter.stats, cfg) && records == Records(p, m)
    requires IsProgress(stage, p, m, records) && stage(first, now)
    requires p.base == out.base && p.stride == out.stride && p.pair == out.pair
    requires last == first + |results| && last <= p.rows && ResultsAt(p, m, first, results)
    modifies meter
    ensures ok ==> stage(last, after)
    ensures !ok ==> Fails(cfg, p, m) && OnlyOutputs(p, m, after)
    ensures Fair(meter.stats, cfg)
    ensures ok ==> Charged(old(meter.stats), meter.stats, ResultBill(Offset(|results|, if out.pair then 8 else 4)))
  {
    after := now;
    ghost var before, width := meter.stats, if out.pair then 8 else 4;
    ChargeNothing(before, cfg);
    for o := first to last
      invariant stage(o, after)
      invariant Fair(meter.stats, cfg) && Charged(before, meter.stats, ResultBill(Offset(o - first, width)))
    {
      ok, after := WriteNext(cfg, p, m, records, after, out, first, results, o, meter, stage, before, width);
      if !ok {
        return;
      }
    }
    ok := true;
  }

  // ----------------------------------------------------------------- commands

  /** The engine's answer for a command: the specified memory, or a failure that touched only
      outputs. */
  ghost predicate Answers(cfg: Config, p: Shape, m: Memory, ok: bool, after: Memory) {
    && (if ok then Accepted(p, m) && after == StoreAll(p, m, Records(p, m), p.rows) else Fails(cfg, p, m))
    && OnlyOutputs(p, m, after)
  }

  lemma StageStart(p: Shape, m: Memory) returns (stage: Progress)
    ensures IsProgress(stage, p, m, Records(p, m)) && stage(0, m)
  {
    stage := ProgressOf(p, m, Records(p, m));
    assert Marked(0, m);
  }

  lemma StageEnd(cfg: Config, p: Shape, m: Memory, after: Memory, stage: Progress)
    requires IsProgress(stage, p, m, Records(p, m)) && stage(p.rows, after)
    ensures Answers(cfg, p, m, true, after)
  {
    assert Marked(p.rows, after);
  }

  lemma StageFails(cfg: Config, p: Shape, m: Memory, records: seq<seq<Byte>>, k: nat, now: Memory, bad: nat)
    requires Sized(p, records) && Independent(p) && Stage(p, m, records, k, now) && k <= bad < p.rows
    requires Halts(cfg, p, now, bad)
    ensures Answers(cfg, p, m, false, now)
  {
    BadOutput(cfg, p, m, records, k, bad);
  }

  function Width(c: Command): nat
    requires Projection(c)
  {
    if c.output.pair then 8 else 4
  }

  /** One tile of a projection, computed and written back. */
  method RunTile(cfg: Config, ghost p: Shape, ghost m: Memory, c: Command, ghost records: seq<seq<Byte>>,
                 now: Memory, tile: nat, next: nat, lanes: array<MinArg>, meter: Meter, ghost stage: Progress)
    returns (ok: bool, after: Memory)
    requires cfg.Valid() && lanes.Length == cfg.lanes && Fair(meter.stats, cfg)
    requires Projection(c) && p == Lower(c) && Independent(p)
    requires c.output.pair == c.Map3Project? && tile < next <= c.matrix.rows
    requires records == Records(p, m) && IsProgress(stage, p, m, records) && stage(tile, now)
    modifies lanes, meter
    ensures ok ==> stage(next, after)
    ensures !ok ==> Answers(cfg, p, m, false, after)
    ensures Fair(meter.stats, cfg)
    ensures ok ==> Charged(old(meter.stats), meter.stats,
                           TilesBill(c.Map3Project?, 1, next - tile, c.matrix.columns,
                                     RowGroups(c.matrix.columns, cfg), Width(c)))
  {
    var states;
    ghost var bad;
    ghost var before := meter.stats;
    assert Marked(tile, now);
    ghost var check := RowCheckOf(p, now);
    ok, states, bad := ProjectTile(cfg, now, c, tile, next - tile, lanes, meter, p, check);
    if !ok {
      StageFails(cfg, p, m, records, tile, now, bad);
      return false, now;
    }
    TileResults(p, m, records, tile, states, now, check);
    ghost var computed := meter.stats;
    ok, after := WriteResults(cfg, p, m, records, now, c.output, tile, states, next, meter, stage);
    if ok {
      TileCharge(before, computed, meter.stats, c.Map3Project?, next - tile, c.matrix.columns,
                 RowGroups(c.matrix.columns, cfg), Width(c));
    }
  }

  /** Tiles of `tm` rows: after `tiles` of them, all rows before `row`. */
  ghost predicate Tiled(tm: nat, rows: nat, tiles: nat, row: nat) {
    row <= rows && row <= Offset(tiles, tm) && (row < rows ==> row == Offset(tiles, tm))
    && (tiles > 0 ==> Offset(tiles - 1, tm) < rows)
  }

  lemma TiledNext(tm: nat, rows: nat, tiles: nat, row: nat, next: nat)
    requires tm > 0 && row < rows && Tiled(tm, rows, tiles, row)
    requires next == if tm < rows - row then row + tm else rows
    ensures row < next <= rows && Tiled(tm, rows, tiles + 1, next)
  {
  }

  /** The next tile of a projection. */
  method RunNextTile(cfg: Config, ghost p: Shape, ghost m: Memory, c: Command, ghost records: seq<seq<Byte>>,
                     now: Memory, tile: nat, next: nat, lanes: array<MinArg>, meter: Meter, ghost stage: Progress,
                     ghost before: Stats, ghost tiles: nat)
    returns (ok: bool, after: Memory)
    requires cfg.Valid() && lanes.Length == cfg.lanes && Fair(meter.stats, cfg)
    requires Projection(c) && p == Lower(c) && Independent(p)
    requires c.output.pair == c.Map3Project? && tile < next <= c.matrix.rows
    requires records == Records(p, m) && IsProgress(stage, p, m, records) && stage(tile, now)
    requires Charged(before, meter.stats, ProjectionTo(c, cfg, tiles, tile))
    modifies lanes, meter
    ensures ok ==> stage(next, after)
    ensures !ok ==> Answers(cfg, p, m, false, after)
    ensures Fair(meter.stats, cfg)
    ensures ok ==> Charged(before, meter.stats, ProjectionTo(c, cfg, tiles + 1, next))
  {
    ghost var now' := meter.stats;
    ok, after := RunTile(cfg, p, m, c, records, now, tile, next, lanes, meter, stage);
    if ok {
      TilesCharge(before, now', meter.stats, c.Map3Project?, tiles, tile, next, c.matrix.columns,
                  RowGroups(c.matrix.columns, cfg), Width(c));
    }
  }

  /** The work of a projection after so many tiles and rows. */
  ghost function ProjectionTo(c: Command, cfg: Config, tiles: nat, rows: nat): Bill
    requires Projection(c) && cfg.Valid()
  {
    TilesBill(c.Map3Project?, tiles, rows, c.matrix.columns, RowGroups(c.matrix.columns, cfg), Width(c))
  }

  /** Every tile reads the shared vectors once and each of its matrix rows once. */
  method RunProjection(cfg: Config, m: Memory, c: Command, lanes: array<MinArg>, meter: Meter, ghost p: Shape)
    returns (ok: bool, after: Memory, ghost tiles: nat)
    requires cfg.Valid() && lanes.Length == cfg.lanes && Fair(meter.stats, cfg)
    requires Projection(c) && p == Lower(c) && Independent(p)
    requires c.output.pair == c.Map3Project?
    modifies lanes, meter
    ensures Answers(cfg, p, m, ok, after)
    ensures Fair(meter.stats, cfg) && (ok ==> Tiled(cfg.tm, c.matrix.rows, tiles, c.matrix.rows))
    ensures ok ==> Charged(old(meter.stats), meter.stats, ProjectionTo(c, cfg, tiles, c.matrix.rows))
  {
    ghost var records := Records(p, m);
    ghost var stage := StageStart(p, m);
    ghost var before := meter.stats;
    NoRowsCharge(before, cfg, c.Map3Project?, c.matrix.columns, RowGroups(c.matrix.columns, cfg));
    after, tiles := m, 0;
    var tile := 0;
    while tile < c.matrix.rows
      invariant tile <= c.matrix.rows && stage(tile, after)
      invariant Tiled(cfg.tm, c.matrix.rows, tiles, tile) && Fair(meter.stats, cfg)
      invariant Charged(before, meter.stats, ProjectionTo(c, cfg, tiles, tile))
    {
      var next := if cfg.tm < c.matrix.rows - tile then tile + cfg.tm else c.matrix.rows;
      TiledNext(cfg.tm, c.matrix.rows, tiles, tile, next);
      ok, after := RunNextTile(cfg, p, m, c, records, after, tile, next, lanes, meter, stage, before, tiles);
      if !ok {
        return;
      }
      tiles, tile := tiles + 1, next;
    }
    StageEnd(cfg, p, m, after, stage);
    ok := true;
  }

  /** The number of tiles is the number of rows divided by the tile height, rounded up. */
  lemma TilesCeiling(tm: nat, rows: nat, tiles: nat)
    requires tm > 0 && rows > 0 && Tiled(tm, rows, tiles, rows)
    ensures tiles == (rows + tm - 1) / tm
  {
    OffsetIsProduct(tiles, tm);
    OffsetIsProduct(if tiles > 0 then tiles - 1 else 0, tm);
    QuotientIs(rows + tm - 1, tm, tiles);
  }

  lemma QuotientIs(x: nat, d: nat, q: nat)
    requires d > 0 && q * d <= x < (q + 1) * d
    ensures x / d == q
  {
    var q' := x / d;
    assert x == q' * d + x % d;
    Multiples(q' + 1, q, d);
    Multiples(q + 1, q', d);
  }

  lemma Multiples(a: nat, b: nat, d: nat)
    ensures a <= b ==> a * d <= b * d
  {
  }

  method WriteSums(cfg: Config, ghost p: Shape, ghost m: Memory, c: Command, ghost records: seq<seq<Byte>>,
                   now: Memory, chunk: nat, sums: seq<int>, next: nat, meter: Meter, ghost stage: Progress)
    returns (ok: bool, after: Memory)
    requires cfg.Valid() && Fair(meter.stats, cfg)
    requires Addition(c) && p == Lower(c) && Independent(p)
    requires next == chunk + |sums| && next <= c.output.length && ChunkResults(p, now, chunk, sums)
    requires records == Records(p, m) && IsProgress(stage, p, m, records) && stage(chunk, now)
    modifies meter
    ensures ok ==> stage(next, after)
    ensures !ok ==> Answers(cfg, p, m, false, after)
    ensures Fair(meter.stats, cfg)
    ensures ok ==> Charged(old(meter.stats), meter.stats, ResultBill(Offset(|sums|, 4)))
  {
    assert Marked(chunk, now);
    var results := Unindexed(sums);
    AddedResults(p, m, records, chunk, sums, results);
    ok, after := WriteResults(cfg, p, m, records, now, c.output, chunk, results, next, meter, stage);
  }

  method ComputeSums(cfg: Config, ghost p: Shape, ghost m: Memory, c: Command, ghost records: seq<seq<Byte>>,
                     now: Memory, chunk: nat, next: nat, lanes: array<MinArg>, meter: Meter, ghost stage: Progress)
    returns (ok: bool, sums: seq<int>)
    requires cfg.Valid() && lanes.Length == cfg.lanes && Fair(meter.stats, cfg)
    requires Addition(c) && p == Lower(c) && Independent(p) && chunk < next <= c.output.length
    requires records == Records(p, m) && IsProgress(stage, p, m, records) && stage(chunk, now)
    modifies lanes, meter
    ensures ok ==> |sums| == next - chunk && ChunkResults(p, now, chunk, sums)
    ensures !ok ==> Answers(cfg, p, m, false, now)
    ensures Fair(meter.stats, cfg)
    ensures ok ==> Charged(old(meter.stats), meter.stats,
                           Combined(OperandBill(8 * (next - chunk)),
                                    AddBill(false, next - chunk, Groups(next - chunk, cfg.lanes))))
  {
    ghost var bad;
    assert Marked(chunk, now);
    ok, sums, bad := VectorChunk(cfg, now, c, chunk, next - chunk, lanes, meter, p);
    if !ok {
      StageFails(cfg, p, m, records, chunk, now, bad);
    }
  }

  /** One chunk of a vector addition: all of it is read before any of it is written. */
  method RunChunk(cfg: Config, ghost p: Shape, ghost m: Memory, c: Command, ghost records: seq<seq<Byte>>,
                  now: Memory, chunk: nat, next: nat, lanes: array<MinArg>, meter: Meter, ghost stage: Progress)
    returns (ok: bool, after: Memory)
    requires cfg.Valid() && lanes.Length == cfg.lanes && Fair(meter.stats, cfg)
    requires Addition(c) && p == Lower(c) && Independent(p) && chunk < next <= c.output.length
    requires records == Records(p, m) && IsProgress(stage, p, m, records) && stage(chunk, now)
    modifies lanes, meter
    ensures ok ==> stage(next, after)
    ensures !ok ==> Answers(cfg, p, m, false, after)
    ensures Fair(meter.stats, cfg)
    ensures ok ==> Charged(old(meter.stats), meter.stats, AdditionBill(next - chunk, Groups(next - chunk, cfg.lanes)))
  {
    ghost var before := meter.stats;
    var sums;
    after := now;
    ok, sums := ComputeSums(cfg, p, m, c, records, now, chunk, next, lanes, meter, stage);
    if ok {
      ghost var computed := meter.stats;
      ok, after := WriteSums(cfg, p, m, c, records, now, chunk, sums, next, meter, stage);
      if ok {
        AdditionCharge(before, computed, meter.stats, next - chunk, Groups(next - chunk, cfg.lanes));
      }
    }
  }

  /** The records of a vector addition carry no index. */
  function Unindexed(sums: seq<int>): (results: seq<MinArg>)
    ensures |results| == |sums|
    ensures forall i {:trigger results[i]} :: 0 <= i < |results| ==> results[i] == MinArg(sums[i], 0)
  {
    seq(|sums|, i requires 0 <= i < |sums| => MinArg(sums[i], 0))
  }

  /** The next chunk of a vector addition. */
  method RunNextChunk(cfg: Config, ghost p: Shape, ghost m: Memory, c: Command, ghost records: seq<seq<Byte>>,
                      now: Memory, chunk: nat, next: nat, lanes: array<MinArg>, meter: Meter, ghost stage: Progress,
                      ghost before: Stats, ghost groups: nat)
    returns (ok: bool, after: Memory, ghost sum: nat)
    requires cfg.Valid() && lanes.Length == cfg.lanes && Fair(meter.stats, cfg)
    requires Addition(c) && p == Lower(c) && Independent(p)
    requires chunk < c.output.length && next == chunk + NextColumns(c.output.length - chunk, cfg)
    requires records == Records(p, m) && IsProgress(stage, p, m, records) && stage(chunk, now)
    requires Charged(before, meter.stats, AdditionBill(chunk, groups))
    modifies lanes, meter
    ensures ok ==> stage(next, after)
    ensures !ok ==> Answers(cfg, p, m, false, after)
    ensures Fair(meter.stats, cfg)
    ensures ok ==> Charged(before, meter.stats, AdditionBill(next, sum))
    ensures sum + RowGroups(c.output.length - next, cfg) == groups + RowGroups(c.output.length - chunk, cfg)
  {
    ghost var current := meter.stats;
    RowGroupsStep(c.output.length - chunk, cfg, next - chunk);
    sum := groups + Groups(next - chunk, cfg.lanes);
    ok, after := RunChunk(cfg, p, m, c, records, now, chunk, next, lanes, meter, stage);
    if ok {
      AdditionCharges(before, current, meter.stats, chunk, groups, next, Groups(next - chunk, cfg.lanes));
    }
  }

  method RunAddition(cfg: Config, m: Memory, c: Command, lanes: array<MinArg>, meter: Meter, ghost p: Shape)
    returns (ok: bool, after: Memory)
    requires cfg.Valid() && lanes.Length == cfg.lanes && Fair(meter.stats, cfg)
    requires Addition(c) && p == Lower(c) && Independent(p)
    modifies lanes, meter
    ensures Answers(cfg, p, m, ok, after)
    ensures Fair(meter.stats, cfg)
    ensures ok ==> Charged(old(meter.stats), meter.stats,
                           AdditionBill(c.output.length, RowGroups(c.output.length, cfg)))
  {
    ghost var records := Records(p, m);
    ghost var stage := StageStart(p, m);
    ghost var before, total := meter.stats, RowGroups(c.output.length, cfg);
    ghost var groups: nat := 0;
    meter.Spend(cfg, ControlPhase);
    after := m;
    var chunk, n := 0, c.output.length;
    while chunk < n
      invariant chunk <= n && stage(chunk, after)
      invariant groups + RowGroups(n - chunk, cfg) == total
      invariant Fair(meter.stats, cfg) && Charged(before, meter.stats, AdditionBill(chunk, groups))
    {
      var next := chunk + NextColumns(n - chunk, cfg);
      ok, after, groups := RunNextChunk(cfg, p, m, c, records, after, chunk, next, lanes, meter, stage, before, groups);
      if !ok {
        return;
      }
      chunk := next;
    }
    StageEnd(cfg, p, m, after, stage);
    ok := true;
  }

  method RunReduction(cfg: Config, m: Memory, c: Command, lanes: array<MinArg>, meter: Meter)
    returns (ok: bool, after: Memory)
    requires cfg.Valid() && lanes.Length == cfg.lanes && Fair(meter.stats, cfg)
    requires Reduction(c)
    modifies lanes, meter
    ensures Answers(cfg, Lower(c), m, ok, after)
    ensures Fair(meter.stats, cfg)
    ensures ok ==> Charged(old(meter.stats), meter.stats,
                           Combined(RowBill(c.Reduce3?, c.first.length, RowGroups(c.first.length, cfg)),
                                    ResultBill(if c.argmin then 8 else 4)))
  {
    ghost var p := Lower(c);
    ghost var records := Records(p, m);
    ghost var stage := StageStart(p, m);
    ghost var before := meter.stats;
    var state;
    ok, state := ReduceRow(cfg, m, c, lanes, meter, p);
    if !ok {
      if !RowAccepted(p, m, 0) {
        OutputRefused(p, m, 0);
      }
      return false, m;
    }
    SingleOutput(p, m);
    ghost var computed := meter.stats;
    ok, after := WriteResult(cfg, p, m, records, m, 0, c.result, state, c.argmin, meter, stage);
    if ok {
      StageEnd(cfg, p, m, after, stage);
      ChargeBoth(before, computed, meter.stats, RowBill(c.Reduce3?, c.first.length, RowGroups(c.first.length, cfg)),
                 ResultBill(if c.argmin then 8 else 4));
    }
  }

  /** What validity gives the engine. */
  lemma ValidKinds(c: Command)
    requires Validate(c) == Fine && !c.Batch?
    ensures c.Project? || c.Map3Project? ==> Projection(c) && c.output.pair == c.Map3Project?
    ensures c.AddVector? ==> Addition(c)
    ensures c.Reduce2? || c.Reduce3? ==> Reduction(c)
  {
  }

  /** The work of a completed primitive: its operand and result bytes, lane groups, merges and lane
      elements. */
  function CommandBill(c: Command, cfg: Config): Bill
    requires !c.Batch? && cfg.Valid()
  {
    if c.Reduce2? || c.Reduce3? then
      Combined(RowBill(c.Reduce3?, c.first.length, RowGroups(c.first.length, cfg)),
               ResultBill(if c.argmin then 8 else 4))
    else if c.AddVector? then
      AdditionBill(c.output.length, RowGroups(c.output.length, cfg))
    else
      TilesBill(c.Map3Project?, (c.matrix.rows + cfg.tm - 1) / cfg.tm, c.matrix.rows, c.matrix.columns,
                RowGroups(c.matrix.columns, cfg), if c.output.pair then 8 else 4)
  }

  lemma ProjectionBill(c: Command, cfg: Config, tiles: nat)
    requires cfg.Valid() && Validate(c) == Fine && Projection(c)
    requires Tiled(cfg.tm, c.matrix.rows, tiles, c.matrix.rows)
    ensures TilesBill(c.Map3Project?, tiles, c.matrix.rows, c.matrix.columns, RowGroups(c.matrix.columns, cfg),
                      Width(c))
            == CommandBill(c, cfg)
  {
    TilesCeiling(cfg.tm, c.matrix.rows, tiles);
  }

  /** Dispatch by kind of command. */
  method RunPrimitive(cfg: Config, m: Memory, c: Command, lanes: array<MinArg>, meter: Meter)
    returns (ok: bool, after: Memory)
    requires cfg.Valid() && lanes.Length == cfg.lanes && Fair(meter.stats, cfg)
    requires Validate(c) == Fine && !c.Batch?
    modifies lanes, meter
    ensures Answers(cfg, Lower(c), m, ok, after)
    ensures Fair(meter.stats, cfg)
    ensures ok ==> Charged(old(meter.stats), meter.stats, CommandBill(c, cfg))
  {
    ValidIndependent(c);
    ValidKinds(c);
    if c.Project? || c.Map3Project? {
      ghost var tiles;
      ok, after, tiles := RunProjection(cfg, m, c, lanes, meter, Lower(c));
      if ok {
        ProjectionBill(c, cfg, tiles);
      }
    } else if c.AddVector? {
      ok, after := RunAddition(cfg, m, c, lanes, meter, Lower(c));
    } else {
      ok, after := RunReduction(cfg, m, c, lanes, meter);
    }
  }

  /** Operand and result bytes in closed form: a reduction or addition reads each operand once; a
      projection reads the matrix once and the shared vectors once per tile. */
  lemma TrafficClosed(c: Command, cfg: Config)
    requires cfg.Valid() && Validate(c) == Fine && !c.Batch?
    ensures c.Reduce2? || c.AddVector? ==> CommandBill(c, cfg).operand == 4 * 2 * c.first.length
    ensures c.Reduce3? ==> CommandBill(c, cfg).operand == 4 * 3 * c.first.length
    ensures c.Project? || c.Map3Project? ==>
              var m, n := c.matrix.rows, c.matrix.columns;
              CommandBill(c, cfg).operand == 4 * (m * n + SharedVectors(c) * n * ((m + cfg.tm - 1) / cfg.tm))
    ensures CommandBill(c, cfg).result == Lower(c).rows * OutWidth(Lower(c))
  {
    ValidKinds(c);
    OffsetIsProduct(Lower(c).rows, OutWidth(Lower(c)));
    if c.Project? || c.Map3Project? {
      var m: nat, n: nat, tiles: nat := c.matrix.rows, c.matrix.columns, (c.matrix.rows + cfg.tm - 1) / cfg.tm;
      ProjectionClosed(c.Map3Project?, tiles, m, n, RowGroups(n, cfg));
    }
  }

  /** Lane groups, merges and lane elements in closed form: every sum of two costs takes a pass over its
      row, and every row is merged group by group; the sums of two shared vectors are made once per
      tile. */
  lemma WorkClosed(c: Command, cfg: Config)
    requires cfg.Valid() && Validate(c) == Fine && !c.Batch?
    ensures var bill := CommandBill(c, cfg);
            if c.Reduce2? || c.Reduce3? then
              var n, g, passes := c.first.length, RowGroups(c.first.length, cfg), if c.Reduce3? then 2 else 1;
              bill.groups == passes * g && bill.updates == g && bill.elements == passes * n
            else if c.AddVector? then
              var n := c.first.length;
              bill.groups == RowGroups(n, cfg) && bill.updates == 0 && bill.elements == n
            else
              var m, n, g := c.matrix.rows, c.matrix.columns, RowGroups(c.matrix.columns, cfg);
              var rows := if c.Map3Project? then m + (m + cfg.tm - 1) / cfg.tm else m;
              bill.groups == rows * g && bill.updates == m * g && bill.elements == rows * n
  {
    ValidKinds(c);
    if c.Project? || c.Map3Project? {
      var m: nat, n: nat, tiles: nat := c.matrix.rows, c.matrix.columns, (c.matrix.rows + cfg.tm - 1) / cfg.tm;
      var sums := if c.Map3Project? then m + tiles else m;
      OffsetIsProduct(sums, RowGroups(n, cfg));
      OffsetIsProduct(sums, n);
      OffsetIsProduct(m, RowGroups(n, cfg));
    }
  }

  /** A row of so many full chunks and a rest takes the groups of each, which `Meters.GroupsExact` rounds
      up to whole lanes. */
  lemma {:induction false} RowGroupsClosed(full: nat, rest: nat, cfg: Config)
    requires cfg.Valid() && rest < cfg.tn
    ensures RowGroups(Offset(full, cfg.tn) + rest, cfg)
            == Offset(full, Groups(cfg.tn, cfg.lanes)) + Groups(rest, cfg.lanes)
  {
    if full > 0 {
      RowGroupsClosed(full - 1, rest, cfg);
      RowGroupsStep(Offset(full, cfg.tn) + rest, cfg, cfg.tn);
    }
  }

  lemma ProjectionClosed(two: bool, tiles: nat, rows: nat, columns: nat, groups: nat)
    ensures ProjectBill(two, tiles, rows, columns, groups).operand
            == 4 * (rows * columns + (if two then 2 else 1) * columns * tiles)
  {
    var loads := if two then 2 * tiles else tiles;
    OffsetIsProduct(loads + rows, columns);
    assert (loads + rows) * columns == loads * columns + rows * columns;
    assert loads * columns == (if two then 2 else 1) * columns * tiles;
  }

  /** The engine: configuration, lanes, statistics and the memory it works on. */
  class L2 {
    const config: Config
    const lanes: array<MinArg>
    const meter: Meter
    var memory: Memory

    ghost predicate Valid()
      reads this, meter
    {
      config.Valid() && lanes.Length == config.lanes && Fair(meter.stats, config)
    }

    constructor (config: Config, memory: Memory)
      requires config.Valid()
      ensures Valid() && this.config == config && this.memory == memory && fresh(lanes) && fresh(meter)
      ensures meter.stats == NO_STATS
    {
      this.config := config;
      this.memory := memory;
      meter := new Meter();
      lanes := new MinArg[config.lanes](i => MinArg(0, 0));
      new;
      NoStatsFair(config);
    }

    /** Runs one primitive command. Only a command that succeeds need stay away from the engine's
        registers. */
    method Primitive(c: Command) returns (ok: bool)
      requires Valid() && Validate(c) == Fine && !c.Batch?
      requires Accepted(Lower(c), memory) ==> Avoids(config, Lower(c))
      modifies this`memory, meter, lanes
      ensures Valid()
      ensures ok <==> Spec(Lower(c), old(memory)).Some?
      ensures ok ==> Some(memory) == Spec(Lower(c), old(memory))
      ensures OnlyOutputs(Lower(c), old(memory), memory)
      ensures ok ==> Charged(old(meter.stats), meter.stats, CommandBill(c, config))
    {
      ok, memory := RunPrimitive(config, memory, c, lanes, meter);
    }
  }
}
