/** The tiled L2 engine (accelerator/src/l2_accelerator.cpp: primitive): outputs in tiles of
    `tm`, columns in chunks of `tn` and groups of `lanes`, proved to compute what the L0 executor
    computes. */
module Engine {
  import opened Basics
  import opened Costs
  import opened Kernels
  import opened GuestMemory
  import opened Commands
  import opened Semantics
  import opened Lanes
  import opened Transfers
  import opened Meters

  // ----------------------------------------------------- loads and row elements

  /** Element `i` of a chunk is the sum the operands give, or is refused like it. */
  predicate ElementIs(p: Shape, m: Memory, o: nat, chunk: nat, x: Operands, i: nat)
    requires x.Aligned() && i < |x.left|
  {
    Element(p, m, o, chunk + i) == if x.Fine(i) then Some(x.Sum(i)) else None
  }

  ghost predicate Matches(p: Shape, m: Memory, o: nat, chunk: nat, x: Operands)
    requires x.Aligned()
  {
    forall i {:trigger ElementIs(p, m, o, chunk, x, i)} :: 0 <= i < |x.left| ==>
      ElementIs(p, m, o, chunk, x, i)
  }

  lemma ChunkStep(p: Shape, m: Memory, o: nat, chunk: nat, x: Operands, i: nat)
    requires x.Aligned() && i < |x.left| && ElementIs(p, m, o, chunk, x, i)
    ensures AcceptedTo(p, m, o, chunk + i + 1) <==> AcceptedTo(p, m, o, chunk + i) && x.Fine(i)
    ensures x.Fine(i) ==> Row(p, m, o, chunk + i + 1) == Row(p, m, o, chunk + i) + [x.Sum(i)]
  {
  }

  lemma SumsStep(x: Operands, row: seq<int>, i: nat)
    requires x.Aligned() && i < |x.left|
    ensures row + Sums(x)[..i] + [x.Sum(i)] == row + Sums(x)[..i + 1]
  {
  }

  /** A chunk extends the accepted part of its row by exactly its sums. */
  lemma {:induction false} ChunkExtends(p: Shape, m: Memory, o: nat, chunk: nat, x: Operands, n: nat)
    requires x.Aligned() && n <= |x.left| && Matches(p, m, o, chunk, x) && AcceptedTo(p, m, o, chunk)
    ensures AcceptedTo(p, m, o, chunk + n) <==> FineRange(x, 0, n)
    ensures FineRange(x, 0, n) ==> Row(p, m, o, chunk + n) == Row(p, m, o, chunk) + Sums(x)[..n]
  {
    if n > 0 {
      ChunkExtends(p, m, o, chunk, x, n - 1);
      assert ElementIs(p, m, o, chunk, x, n - 1);
      ChunkStep(p, m, o, chunk, x, n - 1);
      SumsStep(x, Row(p, m, o, chunk), n - 1);
    }
  }

  lemma {:induction false} RowAtMostInf(p: Shape, m: Memory, o: nat, n: nat)
    requires AcceptedTo(p, m, o, n)
    ensures AtMostInf(Row(p, m, o, n))
  {
    if n > 0 {
      RowAtMostInf(p, m, o, n - 1);
      assert Element(p, m, o, n - 1).value <= INF;
    }
  }

  lemma {:induction false} LoadedAt(m: Memory, base: nat, stride: nat, start: nat, count: nat, i: nat)
    requires i < count && LoadFine(m, base, stride, start, count)
    ensures CostAt(m, At(base, stride, start + i)) == Some(Loaded(m, base, stride, start, count)[i])
  {
    if i < count - 1 {
      LoadedAt(m, base, stride, start, count - 1, i);
    }
  }

  lemma {:induction false} LoadRefused(m: Memory, base: nat, stride: nat, start: nat, count: nat)
    returns (i: nat)
    requires !LoadFine(m, base, stride, start, count)
    ensures i < count && CostAt(m, At(base, stride, start + i)).None?
  {
    if LoadFine(m, base, stride, start, count - 1) {
      i := count - 1;
    } else {
      i := LoadRefused(m, base, stride, start, count - 1);
    }
  }

  lemma GridAt(v: MatrixView, o: nat, i: nat)
    ensures Place(Grid(v), o, i) == At(v.base + 4 * Offset(o, v.rowStride), v.columnStride, i)
  {
  }

  lemma AlongAt(v: VectorView, o: nat, i: nat)
    ensures Place(Along(v), o, i) == At(v.base, v.stride, i)
    ensures Place(Down(v), i, o) == At(v.base, v.stride, i)
  {
    OffsetUnit(o);
  }

  lemma RefusedTo(p: Shape, m: Memory, o: nat, n: nat)
    requires n <= p.columns && !AcceptedTo(p, m, o, n)
    ensures !RowAccepted(p, m, o)
  {
    if RowAccepted(p, m, o) {
      AcceptedPrefix(p, m, o, n, p.columns);
    }
  }

  // -------------------------------------------------------- allowed addresses

  /** Every operand and output address of the command may be touched by the engine. */
  ghost predicate OperandAllowed(c: Config, p: Shape, op: Operand) {
    forall o, i {:trigger Place(op, o, i)} :: 0 <= o < p.rows && 0 <= i < p.columns ==>
      Allowed(c, Place(op, o, i), 4)
  }

  ghost predicate Avoids(c: Config, p: Shape) {
    && OperandAllowed(c, p, p.first) && OperandAllowed(c, p, p.second)
    && (p.third.Some? ==> OperandAllowed(c, p, p.third.value))
    && forall o {:trigger Slot(p, o)} :: 0 <= o < p.rows ==> Allowed(c, Slot(p, o), OutWidth(p))
  }

  lemma {:induction false} VectorAllowed(c: Config, p: Shape, v: VectorView, start: nat, count: nat)
    requires OperandAllowed(c, p, Along(v)) && p.rows > 0 && start + count <= p.columns
    ensures LoadAllowed(c, v.base, v.stride, start, count)
  {
    if count > 0 {
      VectorAllowed(c, p, v, start, count - 1);
      AlongAt(v, 0, start + count - 1);
    }
  }

  lemma {:induction false} AddedAllowed(c: Config, p: Shape, v: VectorView, start: nat, count: nat)
    requires OperandAllowed(c, p, Down(v)) && p.columns > 0 && start + count <= p.rows
    ensures LoadAllowed(c, v.base, v.stride, start, count)
  {
    if count > 0 {
      AddedAllowed(c, p, v, start, count - 1);
      AlongAt(v, 0, start + count - 1);
    }
  }

  lemma {:induction false} MatrixAllowed(c: Config, p: Shape, v: MatrixView, o: nat, start: nat, count: nat)
    requires OperandAllowed(c, p, Grid(v)) && o < p.rows && start + count <= p.columns
    ensures LoadAllowed(c, v.base + 4 * Offset(o, v.rowStride), v.columnStride, start, count)
  {
    if count > 0 {
      MatrixAllowed(c, p, v, o, start, count - 1);
      GridAt(v, o, start + count - 1);
    }
  }

  // ---------------------------------------------------------------- reductions

  /** The element two or three readable operands give. */
  lemma ElementFrom(p: Shape, m: Memory, o: nat, i: nat, a: int, b: int)
    requires CostAt(m, Place(p.first, o, i)) == Some(a) && CostAt(m, Place(p.second, o, i)) == Some(b)
    ensures p.third.None? ==>
              Element(p, m, o, i) == if AddChecked(a, b).Sum? then Some(Add(a, b)) else None
    ensures p.third.Some? && CostAt(m, Place(p.third.value, o, i)).Some? ==>
              var t := CostAt(m, Place(p.third.value, o, i)).value;
              Element(p, m, o, i) == if AddChecked(a, b).Sum? && AddChecked(Add(a, b), t).Sum?
                                     then Some(Add(Add(a, b), t)) else None
  {
  }

  /** An unreadable operand refuses its element. */
  lemma ElementLost(p: Shape, m: Memory, o: nat, i: nat)
    requires || CostAt(m, Place(p.first, o, i)).None? || CostAt(m, Place(p.second, o, i)).None?
             || (p.third.Some? && CostAt(m, Place(p.third.value, o, i)).None?)
    ensures Element(p, m, o, i).None?
  {
  }

  /** A vector operand that cannot be loaded refuses every row. */
  lemma VectorLost(p: Shape, m: Memory, v: VectorView, o: nat, start: nat, count: nat)
    requires p.first == Along(v) || p.second == Along(v) || p.third == Some(Along(v))
    requires start + count <= p.columns && !LoadFine(m, v.base, v.stride, start, count)
    ensures !RowAccepted(p, m, o)
  {
    var i := LoadRefused(m, v.base, v.stride, start, count);
    AlongAt(v, o, start + i);
    ElementLost(p, m, o, start + i);
    Refused(p, m, o, start + i);
  }

  ghost predicate Reduction(c: Command) {
    || (c.Reduce2? && c.second.length == c.first.length)
    || (c.Reduce3? && c.second.length == c.first.length && c.third.length == c.first.length)
  }

  ghost predicate OperandsAllowed(cfg: Config, p: Shape) {
    && OperandAllowed(cfg, p, p.first) && OperandAllowed(cfg, p, p.second)
    && (p.third.Some? ==> OperandAllowed(cfg, p, p.third.value))
  }

  /** Output `o` cannot be computed: an element is refused, or the engine may not touch an operand. */
  ghost predicate Halts(cfg: Config, p: Shape, m: Memory, o: nat) {
    !RowAccepted(p, m, o) || !OperandsAllowed(cfg, p)
  }

  /** A vector operand that the engine cannot load halts every row. */
  lemma VectorHalts(cfg: Config, p: Shape, m: Memory, v: VectorView, o: nat, start: nat, count: nat)
    requires p.first == Along(v) || p.second == Along(v) || p.third == Some(Along(v))
    requires p.rows > 0 && start + count <= p.columns
    requires !(LoadFine(m, v.base, v.stride, start, count) && LoadAllowed(cfg, v.base, v.stride, start, count))
    ensures Halts(cfg, p, m, o)
  {
    if OperandsAllowed(cfg, p) {
      VectorAllowed(cfg, p, v, start, count);
      VectorLost(p, m, v, o, start, count);
    }
  }

  lemma ReduceMatches(m: Memory, c: Command, chunk: nat, x: Operands)
    requires Reduction(c) && x.Aligned() && (x.third.Some? <==> c.Reduce3?)
    requires LoadFine(m, c.first.base, c.first.stride, chunk, |x.left|)
    requires LoadFine(m, c.second.base, c.second.stride, chunk, |x.left|)
    requires c.Reduce3? ==> LoadFine(m, c.third.base, c.third.stride, chunk, |x.left|)
    requires x.left == Loaded(m, c.first.base, c.first.stride, chunk, |x.left|)
    requires x.right == Loaded(m, c.second.base, c.second.stride, chunk, |x.left|)
    requires c.Reduce3? ==> x.third.value == Loaded(m, c.third.base, c.third.stride, chunk, |x.left|)
    ensures Matches(Lower(c), m, 0, chunk, x)
  {
    var p := Lower(c);
    forall i | 0 <= i < |x.left| ensures ElementIs(p, m, 0, chunk, x, i) {
      AlongAt(c.first, 0, chunk + i);
      AlongAt(c.second, 0, chunk + i);
      LoadedAt(m, c.first.base, c.first.stride, chunk, |x.left|, i);
      LoadedAt(m, c.second.base, c.second.stride, chunk, |x.left|, i);
      if c.Reduce3? {
        AlongAt(c.third, 0, chunk + i);
        LoadedAt(m, c.third.base, c.third.stride, chunk, |x.left|, i);
      }
      ElementFrom(p, m, 0, chunk + i, x.left[i], x.right[i]);
    }
  }

  /** Loads one chunk of the operands of a reduction. */
  method LoadReduction(cfg: Config, m: Memory, c: Command, chunk: nat, cols: nat, meter: Meter)
    returns (ok: bool, x: Operands)
    requires cfg.Valid() && Fair(meter.stats, cfg) && Reduction(c) && chunk + cols <= c.first.length
    modifies meter
    ensures ok ==> x.Aligned() && |x.left| == cols && Matches(Lower(c), m, 0, chunk, x)
    ensures ok ==> (x.third.Some? <==> c.Reduce3?)
    ensures !ok ==> Halts(cfg, Lower(c), m, 0)
    ensures Fair(meter.stats, cfg)
    ensures ok ==> Charged(old(meter.stats), meter.stats, OperandBill(if c.Reduce3? then 12 * cols else 8 * cols))
  {
    ghost var p := Lower(c);
    ghost var before := meter.stats;
    var a, b;
    x := Operands([], [], None);
    ok, a := Load(cfg, m, c.first.base, c.first.stride, chunk, cols, meter);
    if !ok {
      VectorHalts(cfg, p, m, c.first, 0, chunk, cols);
      return;
    }
    ghost var one := meter.stats;
    ok, b := Load(cfg, m, c.second.base, c.second.stride, chunk, cols, meter);
    if !ok {
      VectorHalts(cfg, p, m, c.second, 0, chunk, cols);
      return;
    }
    ghost var two := meter.stats;
    OperandCharge(before, one, two, 4 * cols, 4 * cols);
    x := Operands(a, b, None);
    if c.Reduce3? {
      var t;
      ok, t := Load(cfg, m, c.third.base, c.third.stride, chunk, cols, meter);
      if !ok {
        VectorHalts(cfg, p, m, c.third, 0, chunk, cols);
        return;
      }
      OperandCharge(before, two, meter.stats, 8 * cols, 4 * cols);
      x := Operands(a, b, Some(t));
    }
    ReduceMatches(m, c, chunk, x);
  }

  /** The state of a row after `n` columns. */
  ghost predicate RowState(p: Shape, m: Memory, o: nat, n: nat, state: MinArg) {
    AcceptedTo(p, m, o, n) && state == FirstMin(Row(p, m, o, n))
  }

  type RowCheck = (nat, nat, MinArg) -> bool

  ghost predicate Noted(o: nat, n: nat, state: MinArg) { true }

  /** `check(o, n, state)` says that `state` is the state of row `o` after `n` columns. */
  ghost predicate IsRowCheck(check: RowCheck, p: Shape, m: Memory) {
    forall o, n, state {:trigger Noted(o, n, state)} ::
      Noted(o, n, state) ==> check(o, n, state) == RowState(p, m, o, n, state)
  }

  ghost function RowCheckOf(p: Shape, m: Memory): (check: RowCheck)
    ensures IsRowCheck(check, p, m)
  {
    (o: nat, n: nat, state: MinArg) => RowState(p, m, o, n, state)
  }

  lemma FreshRow(check: RowCheck, p: Shape, m: Memory, o: nat)
    requires IsRowCheck(check, p, m)
    ensures check(o, 0, MinArg(INF, 0))
  {
    assert Noted(o, 0, MinArg(INF, 0));
  }

  /** Merges one loaded chunk into the state of its row. */
  method MergeChunk(cfg: Config, ghost p: Shape, ghost m: Memory, ghost o: nat, x: Operands, chunk: nat,
                    lanes: array<MinArg>, phase: Phase, meter: Meter, state: MinArg, ghost check: RowCheck)
    returns (ok: bool, merged: MinArg)
    requires lanes.Length == cfg.lanes > 0 && Fair(meter.stats, cfg) && (phase.Add1Phase? || phase.Add2Phase?)
    requires x.Aligned() && chunk + |x.left| <= p.columns
    requires Matches(p, m, o, chunk, x) && IsRowCheck(check, p, m) && check(o, chunk, state)
    modifies lanes, meter
    ensures ok ==> check(o, chunk + |x.left|, merged)
    ensures !ok ==> !RowAccepted(p, m, o)
    ensures Fair(meter.stats, cfg)
    ensures ok ==> Charged(old(meter.stats), meter.stats,
                           ReduceBill(x.third.Some?, |x.left|, Groups(|x.left|, cfg.lanes)))
  {
    assert Noted(o, chunk, state);
    ghost var row := ChunkFacts(p, m, o, chunk, x, state);
    ok, merged := ReduceChunk(cfg, x, chunk, lanes, phase, meter, state, row);
    assert Noted(o, chunk + |x.left|, merged);
  }

  lemma ChunkFacts(p: Shape, m: Memory, o: nat, chunk: nat, x: Operands, state: MinArg)
    returns (row: seq<int>)
    requires x.Aligned() && chunk + |x.left| <= p.columns
    requires Matches(p, m, o, chunk, x) && RowState(p, m, o, chunk, state)
    ensures state == FirstMin(row) && AtMostInf(row) && |row| == chunk
    ensures FineRange(x, 0, |x.left|) ==>
              RowState(p, m, o, chunk + |x.left|, FirstMin(row + Sums(x)))
    ensures !FineRange(x, 0, |x.left|) ==> !RowAccepted(p, m, o)
  {
    row := WholeChunk(p, m, o, chunk, x);
  }

  lemma WholeChunk(p: Shape, m: Memory, o: nat, chunk: nat, x: Operands) returns (row: seq<int>)
    requires x.Aligned() && chunk + |x.left| <= p.columns
    requires Matches(p, m, o, chunk, x) && AcceptedTo(p, m, o, chunk)
    ensures row == Row(p, m, o, chunk) && AtMostInf(row)
    ensures FineRange(x, 0, |x.left|) ==>
              AcceptedTo(p, m, o, chunk + |x.left|) && Row(p, m, o, chunk + |x.left|) == row + Sums(x)
    ensures !FineRange(x, 0, |x.left|) ==> !RowAccepted(p, m, o)
  {
    row := Row(p, m, o, chunk);
    RowAtMostInf(p, m, o, chunk);
    ChunkExtends(p, m, o, chunk, x, |x.left|);
    assert Sums(x)[..|x.left|] == Sums(x);
    if !AcceptedTo(p, m, o, chunk + |x.left|) {
      RefusedTo(p, m, o, chunk + |x.left|);
    }
  }

  /** One chunk of a reduction: load, add, reduce, merge. */
  method ReduceStep(cfg: Config, m: Memory, c: Command, chunk: nat, cols: nat, lanes: array<MinArg>,
                    meter: Meter, state: MinArg, ghost p: Shape, ghost check: RowCheck)
    returns (ok: bool, merged: MinArg)
    requires cfg.Valid() && lanes.Length == cfg.lanes && Fair(meter.stats, cfg)
    requires Reduction(c) && p == Lower(c)
    requires chunk + cols <= c.first.length && IsRowCheck(check, p, m) && check(0, chunk, state)
    modifies lanes, meter
    ensures ok ==> check(0, chunk + cols, merged)
    ensures !ok ==> Halts(cfg, p, m, 0)
    ensures Fair(meter.stats, cfg)
    ensures ok ==> Charged(old(meter.stats), meter.stats, RowBill(c.Reduce3?, cols, Groups(cols, cfg.lanes)))
  {
    var x;
    ghost var before := meter.stats;
    ok, x := LoadReduction(cfg, m, c, chunk, cols, meter);
    merged := state;
    if ok {
      ghost var now := meter.stats;
      ok, merged := MergeChunk(cfg, p, m, 0, x, chunk, lanes, Add1Phase, meter, state, check);
      if ok {
        RowCharge(before, now, meter.stats, c.Reduce3?, cols, Groups(cols, cfg.lanes));
      }
    }
  }

  /** The columns of the next chunk. */
  function NextColumns(left: nat, cfg: Config): (columns: nat)
    requires cfg.Valid()
    ensures columns <= left && (left > 0 ==> columns > 0)
  {
    if cfg.tn < left then cfg.tn else left
  }

  /** The next chunk of a reduction. */
  method ReduceNextChunk(cfg: Config, m: Memory, c: Command, chunk: nat, cols: nat, lanes: array<MinArg>,
                         meter: Meter, state: MinArg, ghost p: Shape, ghost check: RowCheck, ghost before: Stats,
                         ghost groups: nat)
    returns (ok: bool, merged: MinArg, ghost sum: nat)
    requires cfg.Valid() && lanes.Length == cfg.lanes && Fair(meter.stats, cfg)
    requires Reduction(c) && p == Lower(c) && chunk < c.first.length
    requires cols == NextColumns(c.first.length - chunk, cfg) && IsRowCheck(check, p, m) && check(0, chunk, state)
    requires Charged(before, meter.stats, RowBill(c.Reduce3?, chunk, groups))
    modifies lanes, meter
    ensures ok ==> check(0, chunk + cols, merged)
    ensures !ok ==> Halts(cfg, p, m, 0)
    ensures Fair(meter.stats, cfg)
    ensures ok ==> Charged(before, meter.stats, RowBill(c.Reduce3?, chunk + cols, sum))
    ensures sum + RowGroups(c.first.length - chunk - cols, cfg) == groups + RowGroups(c.first.length - chunk, cfg)
  {
    ghost var now := meter.stats;
    RowGroupsStep(c.first.length - chunk, cfg, cols);
    sum := groups + Groups(cols, cfg.lanes);
    ok, merged := ReduceStep(cfg, m, c, chunk, cols, lanes, meter, state, p, check);
    if ok {
      RowCharges(before, now, meter.stats, c.Reduce3?, chunk, groups, cols, Groups(cols, cfg.lanes));
    }
  }

  /** A reduction, chunk by chunk. */
  method ReduceColumns(cfg: Config, m: Memory, c: Command, n: nat, lanes: array<MinArg>, meter: Meter,
                       ghost p: Shape, ghost check: RowCheck)
    returns (ok: bool, state: MinArg)
    requires cfg.Valid() && lanes.Length == cfg.lanes && Fair(meter.stats, cfg)
    requires Reduction(c) && n == c.first.length && p == Lower(c) && IsRowCheck(check, p, m)
    modifies lanes, meter
    ensures ok ==> check(0, n, state)
    ensures !ok ==> Halts(cfg, p, m, 0)
    ensures Fair(meter.stats, cfg)
    ensures ok ==> Charged(old(meter.stats), meter.stats, RowBill(c.Reduce3?, n, RowGroups(n, cfg)))
  {
    ghost var before, total := meter.stats, RowGroups(n, cfg);
    ghost var groups: nat := 0;
    state := MinArg(INF, 0);
    meter.Spend(cfg, ControlPhase);
    FreshRow(check, p, m, 0);
    var chunk := 0;
    while chunk < n
      invariant chunk <= n && check(0, chunk, state)
      invariant groups + RowGroups(n - chunk, cfg) == total
      invariant Fair(meter.stats, cfg) && Charged(before, meter.stats, RowBill(c.Reduce3?, chunk, groups))
    {
      var cols := NextColumns(n - chunk, cfg);
      ok, state, groups := ReduceNextChunk(cfg, m, c, chunk, cols, lanes, meter, state, p, check, before, groups);
      if !ok {
        return;
      }
      chunk := chunk + cols;
    }
    ok := true;
  }

  method ReduceRow(cfg: Config, m: Memory, c: Command, lanes: array<MinArg>, meter: Meter, ghost p: Shape)
    returns (ok: bool, state: MinArg)
    requires cfg.Valid() && lanes.Length == cfg.lanes && Fair(meter.stats, cfg)
    requires Reduction(c) && p == Lower(c)
    modifies lanes, meter
    ensures ok ==> RowAccepted(p, m, 0) && state == Result(p, m, 0)
    ensures !ok ==> Halts(cfg, p, m, 0)
    ensures Fair(meter.stats, cfg)
    ensures ok ==> Charged(old(meter.stats), meter.stats,
                           RowBill(c.Reduce3?, c.first.length, RowGroups(c.first.length, cfg)))
  {
    ghost var check := RowCheckOf(p, m);
    ok, state := ReduceColumns(cfg, m, c, c.first.length, lanes, meter, p, check);
    assert Noted(0, c.first.length, state);
  }

  // --------------------------------------------------------------- projections

  predicate Projection(c: Command) {
    || (c.Project? && c.vector.length == c.matrix.columns && c.output.length == c.matrix.rows)
    || (c.Map3Project? && c.first.length == c.matrix.columns && c.second.length == c.matrix.columns
        && c.output.length == c.matrix.rows)
  }

  /** What all rows of a projection share at column `i`: the vector's cost, or the sum of the two
      vectors' costs. */
  function SharedAt(c: Command, m: Memory, i: nat): Option<int>
    requires Projection(c)
  {
    if c.Project? then CostAt(m, At(c.vector.base, c.vector.stride, i))
    else Joined(CostAt(m, At(c.first.base, c.first.stride, i)), CostAt(m, At(c.second.base, c.second.stride, i)))
  }

  predicate IsShared(c: Command, m: Memory, chunk: nat, shared: seq<int>, i: nat)
    requires Projection(c) && i < |shared|
  {
    SharedAt(c, m, chunk + i) == Some(shared[i])
  }

  ghost predicate Shared(c: Command, m: Memory, chunk: nat, shared: seq<int>)
    requires Projection(c)
  {
    forall i {:trigger IsShared(c, m, chunk, shared, i)} :: 0 <= i < |shared| ==>
      IsShared(c, m, chunk, shared, i)
  }

  lemma {:induction false} FineAt(x: Operands, n: nat, i: nat)
    requires x.Aligned() && i < n <= |x.left| && FineRange(x, 0, n)
    ensures x.Fine(i)
  {
    if i < n - 1 {
      FineAt(x, n - 1, i);
    }
  }

  lemma {:induction false} NotFine(x: Operands, n: nat) returns (i: nat)
    requires x.Aligned() && n <= |x.left| && !FineRange(x, 0, n)
    ensures i < n && !x.Fine(i)
  {
    if FineRange(x, 0, n - 1) {
      i := n - 1;
    } else {
      i := NotFine(x, n - 1);
    }
  }

  /** A column whose shared part is missing refuses every row. */
  lemma SharedLost(c: Command, m: Memory, o: nat, i: nat)
    requires Projection(c) && i < c.matrix.columns && SharedAt(c, m, i).None?
    ensures !RowAccepted(Lower(c), m, o)
  {
    var p := Lower(c);
    if c.Project? {
      AlongAt(c.vector, o, i);
    } else {
      AlongAt(c.first, o, i);
      AlongAt(c.second, o, i);
    }
    Refused(p, m, o, i);
  }

  lemma SharedLostAll(c: Command, m: Memory, o: nat, v: VectorView, start: nat, count: nat)
    requires Projection(c) && start + count <= c.matrix.columns && !LoadFine(m, v.base, v.stride, start, count)
    requires if c.Project? then v == c.vector else v == c.first || v == c.second
    ensures !RowAccepted(Lower(c), m, o)
  {
    var i := LoadRefused(m, v.base, v.stride, start, count);
    SharedLost(c, m, o, start + i);
  }

  lemma SharedHalts(cfg: Config, c: Command, m: Memory, o: nat, v: VectorView, start: nat, count: nat)
    requires Projection(c) && c.matrix.rows > 0 && start + count <= c.matrix.columns
    requires if c.Project? then v == c.vector else v == c.first || v == c.second
    requires !(LoadFine(m, v.base, v.stride, start, count) && LoadAllowed(cfg, v.base, v.stride, start, count))
    ensures Halts(cfg, Lower(c), m, o)
  {
    if OperandsAllowed(cfg, Lower(c)) {
      VectorAllowed(cfg, Lower(c), v, start, count);
      SharedLostAll(c, m, o, v, start, count);
    }
  }

  /** How many vectors all rows share. */
  function SharedVectors(c: Command): nat { if c.Map3Project? then 2 else 1 }

  /** Loads the shared vectors of one chunk; for three operands, adds the two vectors once. */
  method LoadShared(cfg: Config, m: Memory, c: Command, chunk: nat, cols: nat, lanes: array<MinArg>,
                    meter: Meter, ghost o: nat)
    returns (ok: bool, shared: seq<int>)
    requires cfg.Valid() && lanes.Length == cfg.lanes && Fair(meter.stats, cfg)
    requires Projection(c) && c.matrix.rows > 0
    requires chunk + cols <= c.matrix.columns
    modifies lanes, meter
    ensures ok ==> |shared| == cols && Shared(c, m, chunk, shared)
    ensures !ok ==> Halts(cfg, Lower(c), m, o)
    ensures Fair(meter.stats, cfg)
    ensures ok ==> Charged(old(meter.stats), meter.stats,
                           ProjectBill(c.Map3Project?, 1, 0, cols, Groups(cols, cfg.lanes)))
  {
    SharedBill(cols, Groups(cols, cfg.lanes));
    if c.Project? {
      ok, shared := Load(cfg, m, c.vector.base, c.vector.stride, chunk, cols, meter);
      if !ok {
        SharedHalts(cfg, c, m, o, c.vector, chunk, cols);
        return;
      }
      forall i | 0 <= i < cols ensures IsShared(c, m, chunk, shared, i) {
        LoadedAt(m, c.vector.base, c.vector.stride, chunk, cols, i);
      }
    } else {
      ok, shared := LoadSharedSum(cfg, m, c, chunk, cols, lanes, meter, o);
    }
  }

  method LoadSharedSum(cfg: Config, m: Memory, c: Command, chunk: nat, cols: nat, lanes: array<MinArg>,
                       meter: Meter, ghost o: nat)
    returns (ok: bool, shared: seq<int>)
    requires cfg.Valid() && lanes.Length == cfg.lanes && Fair(meter.stats, cfg)
    requires Projection(c) && c.Map3Project?
    requires c.matrix.rows > 0 && chunk + cols <= c.matrix.columns
    modifies lanes, meter
    ensures ok ==> |shared| == cols && Shared(c, m, chunk, shared)
    ensures !ok ==> Halts(cfg, Lower(c), m, o)
    ensures Fair(meter.stats, cfg)
    ensures ok ==> Charged(old(meter.stats), meter.stats,
                           Combined(OperandBill(8 * cols), AddBill(false, cols, Groups(cols, cfg.lanes))))
  {
    var a, b;
    ghost var before := meter.stats;
    ok, a := Load(cfg, m, c.first.base, c.first.stride, chunk, cols, meter);
    if !ok {
      SharedHalts(cfg, c, m, o, c.first, chunk, cols);
      return false, [];
    }
    ghost var one := meter.stats;
    ok, b := Load(cfg, m, c.second.base, c.second.stride, chunk, cols, meter);
    if !ok {
      SharedHalts(cfg, c, m, o, c.second, chunk, cols);
      return false, [];
    }
    ghost var two := meter.stats;
    OperandCharge(before, one, two, 4 * cols, 4 * cols);
    var x := Operands(a, b, None);
    ok, shared := AddChunk(cfg, x, chunk, lanes, meter);
    SharedSum(c, m, chunk, x, o);
    if ok {
      ChargeBoth(before, two, meter.stats, OperandBill(8 * cols), AddBill(false, cols, Groups(cols, cfg.lanes)));
    }
  }

  lemma SharedSum(c: Command, m: Memory, chunk: nat, x: Operands, o: nat)
    requires Projection(c) && c.Map3Project? && x.Aligned() && x.third.None?
    requires chunk + |x.left| <= c.matrix.columns
    requires LoadFine(m, c.first.base, c.first.stride, chunk, |x.left|)
    requires LoadFine(m, c.second.base, c.second.stride, chunk, |x.left|)
    requires x.left == Loaded(m, c.first.base, c.first.stride, chunk, |x.left|)
    requires x.right == Loaded(m, c.second.base, c.second.stride, chunk, |x.left|)
    ensures FineRange(x, 0, |x.left|) ==> Shared(c, m, chunk, Sums(x))
    ensures !FineRange(x, 0, |x.left|) ==> !RowAccepted(Lower(c), m, o)
  {
    var n := |x.left|;
    if FineRange(x, 0, n) {
      forall i | 0 <= i < n ensures IsShared(c, m, chunk, Sums(x), i) {
        LoadedAt(m, c.first.base, c.first.stride, chunk, n, i);
        LoadedAt(m, c.second.base, c.second.stride, chunk, n, i);
        FineAt(x, n, i);
      }
    } else {
      var i := NotFine(x, n);
      LoadedAt(m, c.first.base, c.first.stride, chunk, n, i);
      LoadedAt(m, c.second.base, c.second.stride, chunk, n, i);
      SharedLost(c, m, o, chunk + i);
    }
  }

  /** A row's element from its matrix cost and the shared part. */
  lemma ProjectElement(c: Command, m: Memory, o: nat, i: nat, t: int, value: int)
    requires Projection(c) && SharedAt(c, m, i) == Some(value)
    requires CostAt(m, Place(Grid(c.matrix), o, i)) == Some(t)
    ensures Element(Lower(c), m, o, i) == if AddChecked(t, value).Sum? then Some(Add(t, value)) else None
  {
    AddCommutes(t, value);
    if c.Project? {
      AlongAt(c.vector, o, i);
    } else {
      AlongAt(c.first, o, i);
      AlongAt(c.second, o, i);
    }
  }

  lemma ProjectMatches(c: Command, m: Memory, o: nat, chunk: nat, x: Operands)
    requires Projection(c) && x.Aligned() && x.third.None? && Shared(c, m, chunk, x.right)
    requires var base := c.matrix.base + 4 * Offset(o, c.matrix.rowStride);
             && LoadFine(m, base, c.matrix.columnStride, chunk, |x.left|)
             && x.left == Loaded(m, base, c.matrix.columnStride, chunk, |x.left|)
    ensures Matches(Lower(c), m, o, chunk, x)
  {
    var base := c.matrix.base + 4 * Offset(o, c.matrix.rowStride);
    forall i | 0 <= i < |x.left| ensures ElementIs(Lower(c), m, o, chunk, x, i) {
      GridAt(c.matrix, o, chunk + i);
      LoadedAt(m, base, c.matrix.columnStride, chunk, |x.left|, i);
      assert IsShared(c, m, chunk, x.right, i);
      ProjectElement(c, m, o, chunk + i, x.left[i], x.right[i]);
    }
  }

  lemma MatrixLost(c: Command, m: Memory, o: nat, start: nat, count: nat)
    requires Projection(c) && start + count <= c.matrix.columns
    requires !LoadFine(m, c.matrix.base + 4 * Offset(o, c.matrix.rowStride), c.matrix.columnStride, start, count)
    ensures !RowAccepted(Lower(c), m, o)
  {
    var p := Lower(c);
    var i := LoadRefused(m, c.matrix.base + 4 * Offset(o, c.matrix.rowStride), c.matrix.columnStride, start, count);
    GridAt(c.matrix, o, start + i);
    ElementLost(p, m, o, start + i);
    Refused(p, m, o, start + i);
  }

  lemma MatrixHalts(cfg: Config, c: Command, m: Memory, o: nat, start: nat, count: nat)
    requires Projection(c) && o < c.matrix.rows && start + count <= c.matrix.columns
    requires var base := c.matrix.base + 4 * Offset(o, c.matrix.rowStride);
             !(LoadFine(m, base, c.matrix.columnStride, start, count)
               && LoadAllowed(cfg, base, c.matrix.columnStride, start, count))
    ensures Halts(cfg, Lower(c), m, o)
  {
    if OperandsAllowed(cfg, Lower(c)) {
      MatrixAllowed(cfg, Lower(c), c.matrix, o, start, count);
      MatrixLost(c, m, o, start, count);
    }
  }

  method RowBase(v: MatrixView, o: nat) returns (base: nat)
    ensures base == v.base + 4 * Offset(o, v.rowStride)
  {
    OffsetIsProduct(o, v.rowStride);
    base := v.base + o * v.rowStride * 4;
  }

  /** One chunk of one row: load the matrix part, add the shared part, merge. */
  method ProjectRow(cfg: Config, m: Memory, c: Command, o: nat, chunk: nat, shared: seq<int>,
                    lanes: array<MinArg>, meter: Meter, state: MinArg, ghost p: Shape, ghost check: RowCheck)
    returns (ok: bool, merged: MinArg)
    requires cfg.Valid() && lanes.Length == cfg.lanes && Fair(meter.stats, cfg)
    requires Projection(c) && p == Lower(c)
    requires o < c.matrix.rows && chunk + |shared| <= c.matrix.columns && Shared(c, m, chunk, shared)
    requires IsRowCheck(check, p, m) && check(o, chunk, state)
    modifies lanes, meter
    ensures ok ==> check(o, chunk + |shared|, merged)
    ensures !ok ==> Halts(cfg, p, m, o)
    ensures Fair(meter.stats, cfg)
    ensures ok ==> Charged(old(meter.stats), meter.stats,
                           ProjectBill(c.Map3Project?, 0, 1, |shared|, Groups(|shared|, cfg.lanes)))
  {
    var row;
    merged := state;
    ghost var before := meter.stats;
    var base := RowBase(c.matrix, o);
    ok, row := Load(cfg, m, base, c.matrix.columnStride, chunk, |shared|, meter);
    if !ok {
      MatrixHalts(cfg, c, m, o, chunk, |shared|);
      return;
    }
    ghost var now := meter.stats;
    var x := Operands(row, shared, None);
    ProjectMatches(c, m, o, chunk, x);
    var phase := if c.Map3Project? then Add2Phase else Add1Phase;
    ok, merged := MergeChunk(cfg, p, m, o, x, chunk, lanes, phase, meter, state, check);
    if ok {
      MatrixCharge(before, now, meter.stats, c.Map3Project?, |shared|, Groups(|shared|, cfg.lanes));
    }
  }

  /** The states of a tile after `n` columns. */
  ghost predicate TileState(check: RowCheck, tile: nat, states: seq<MinArg>, n: nat) {
    forall r {:trigger states[r]} :: 0 <= r < |states| ==> check(tile + r, n, states[r])
  }

  /** One chunk of all rows of a tile. */
  method TileChunk(cfg: Config, m: Memory, c: Command, tile: nat, chunk: nat, cols: nat,
                   lanes: array<MinArg>, meter: Meter, states: seq<MinArg>, ghost p: Shape, ghost check: RowCheck)
    returns (ok: bool, after: seq<MinArg>, ghost bad: nat)
    requires cfg.Valid() && lanes.Length == cfg.lanes && Fair(meter.stats, cfg)
    requires Projection(c) && p == Lower(c)
    requires 0 < |states| && tile + |states| <= c.matrix.rows && chunk + cols <= c.matrix.columns
    requires IsRowCheck(check, p, m) && TileState(check, tile, states, chunk)
    modifies lanes, meter
    ensures ok ==> |after| == |states| && TileState(check, tile, after, chunk + cols)
    ensures !ok ==> tile <= bad < tile + |states| && Halts(cfg, p, m, bad)
    ensures Fair(meter.stats, cfg)
    ensures ok ==> Charged(old(meter.stats), meter.stats,
                           ProjectBill(c.Map3Project?, 1, |states|, cols, Groups(cols, cfg.lanes)))
  {
    var shared;
    ghost var before := meter.stats;
    bad, after := tile, states;
    ok, shared := LoadShared(cfg, m, c, chunk, cols, lanes, meter, tile);
    if ok {
      ghost var now := meter.stats;
      ok, after, bad := TileRows(cfg, m, c, tile, chunk, shared, lanes, meter, states, p, check);
      if ok {
        ProjectRowsCharge(before, now, meter.stats, c.Map3Project?, 1, 0, 0, |states|, cols, Groups(cols, cfg.lanes));
      }
    }
  }

  method TileRows(cfg: Config, m: Memory, c: Command, tile: nat, chunk: nat, shared: seq<int>,
                  lanes: array<MinArg>, meter: Meter, states: seq<MinArg>, ghost p: Shape, ghost check: RowCheck)
    returns (ok: bool, after: seq<MinArg>, ghost bad: nat)
    requires cfg.Valid() && lanes.Length == cfg.lanes && Fair(meter.stats, cfg)
    requires Projection(c) && p == Lower(c)
    requires tile + |states| <= c.matrix.rows && chunk + |shared| <= c.matrix.columns
    requires IsRowCheck(check, p, m) && TileState(check, tile, states, chunk) && Shared(c, m, chunk, shared)
    modifies lanes, meter
    ensures ok ==> |after| == |states| && TileState(check, tile, after, chunk + |shared|)
    ensures !ok ==> tile <= bad < tile + |states| && Halts(cfg, p, m, bad)
    ensures Fair(meter.stats, cfg)
    ensures ok ==> Charged(old(meter.stats), meter.stats,
                           ProjectBill(c.Map3Project?, 0, |states|, |shared|, Groups(|shared|, cfg.lanes)))
  {
    ghost var before, groups := meter.stats, Groups(|shared|, cfg.lanes);
    NoRowsCharge(before, cfg, c.Map3Project?, |shared|, groups);
    bad, after := tile, states;
    for r := 0 to |states|
      invariant |after| == |states|
      invariant forall q {:trigger after[q]} :: 0 <= q < |after| ==>
                  check(tile + q, if q < r then chunk + |shared| else chunk, after[q])
      invariant Fair(meter.stats, cfg)
      invariant Charged(before, meter.stats, ProjectBill(c.Map3Project?, 0, r, |shared|, groups))
    {
      var merged;
      ghost var now := meter.stats;
      bad := tile + r;
      ok, merged := ProjectRow(cfg, m, c, tile + r, chunk, shared, lanes, meter, after[r], p, check);
      if !ok {
        return;
      }
      ProjectRowsCharge(before, now, meter.stats, c.Map3Project?, 0, r, 0, 1, |shared|, groups);
      after := after[r := merged];
    }
    ok := true;
  }

  /** Sets the states of a tile to {INF, 0}, one cycle each. */
  method InitStates(cfg: Config, tile: nat, rows: nat, meter: Meter, ghost p: Shape, ghost m: Memory,
                    ghost check: RowCheck)
    returns (states: seq<MinArg>)
    requires Fair(meter.stats, cfg) && IsRowCheck(check, p, m)
    modifies meter
    ensures |states| == rows && TileState(check, tile, states, 0)
    ensures Fair(meter.stats, cfg) && Charged(old(meter.stats), meter.stats, FREE)
  {
    ghost var before := meter.stats;
    ChargeNothing(before, cfg);
    states := [];
    for r := 0 to rows
      invariant |states| == r && forall q {:trigger states[q]} :: 0 <= q < r ==> states[q] == MinArg(INF, 0)
      invariant Fair(meter.stats, cfg) && Charged(before, meter.stats, FREE)
    {
      ghost var now := meter.stats;
      states := states + [MinArg(INF, 0)];
      meter.Spend(cfg, ControlPhase);
      ChargeFree(before, now, meter.stats, FREE);
    }
    forall r | 0 <= r < rows ensures check(tile + r, 0, states[r]) {
      FreshRow(check, p, m, tile + r);
    }
  }

  /** The next chunk of a tile. */
  method TileNext(cfg: Config, m: Memory, c: Command, tile: nat, chunk: nat, cols: nat, lanes: array<MinArg>,
                  meter: Meter, states: seq<MinArg>, ghost p: Shape, ghost check: RowCheck,
                  ghost before: Stats, ghost groups: nat)
    returns (ok: bool, after: seq<MinArg>, ghost bad: nat, ghost sum: nat)
    requires cfg.Valid() && lanes.Length == cfg.lanes && Fair(meter.stats, cfg)
    requires Projection(c) && p == Lower(c)
    requires 0 < |states| && tile + |states| <= c.matrix.rows && chunk < c.matrix.columns
    requires cols == NextColumns(c.matrix.columns - chunk, cfg)
    requires IsRowCheck(check, p, m) && TileState(check, tile, states, chunk)
    requires Charged(before, meter.stats, ProjectBill(c.Map3Project?, 1, |states|, chunk, groups))
    modifies lanes, meter
    ensures ok ==> |after| == |states| && TileState(check, tile, after, chunk + cols)
    ensures !ok ==> tile <= bad < tile + |states| && Halts(cfg, p, m, bad)
    ensures Fair(meter.stats, cfg)
    ensures ok ==> Charged(before, meter.stats, ProjectBill(c.Map3Project?, 1, |states|, chunk + cols, sum))
    ensures sum + RowGroups(c.matrix.columns - chunk - cols, cfg) == groups + RowGroups(c.matrix.columns - chunk, cfg)
  {
    ghost var now := meter.stats;
    RowGroupsStep(c.matrix.columns - chunk, cfg, cols);
    sum := groups + Groups(cols, cfg.lanes);
    ok, after, bad := TileChunk(cfg, m, c, tile, chunk, cols, lanes, meter, states, p, check);
    if ok {
      ProjectColumnsCharge(before, now, meter.stats, c.Map3Project?, 1, |states|, chunk, groups, cols,
                           Groups(cols, cfg.lanes));
    }
  }

  method TileColumns(cfg: Config, m: Memory, c: Command, tile: nat, n: nat, lanes: array<MinArg>, meter: Meter,
                     initial: seq<MinArg>, ghost p: Shape, ghost check: RowCheck, ghost total: nat)
    returns (ok: bool, states: seq<MinArg>, ghost bad: nat)
    requires cfg.Valid() && lanes.Length == cfg.lanes && Fair(meter.stats, cfg)
    requires Projection(c) && p == Lower(c)
    requires n == c.matrix.columns && total == RowGroups(n, cfg)
    requires 0 < |initial| && tile + |initial| <= c.matrix.rows
    requires IsRowCheck(check, p, m) && TileState(check, tile, initial, 0)
    modifies lanes, meter
    ensures ok ==> |states| == |initial| && TileState(check, tile, states, n)
    ensures !ok ==> tile <= bad < tile + |initial| && Halts(cfg, p, m, bad)
    ensures Fair(meter.stats, cfg)
    ensures ok ==> Charged(old(meter.stats), meter.stats, ProjectBill(c.Map3Project?, 1, |initial|, n, total))
  {
    ghost var before := meter.stats;
    ghost var groups: nat := 0;
    states, bad := initial, tile;
    NoColumnsBill(c.Map3Project?, 1, |initial|);
    ChargeNothing(before, cfg);
    var chunk := 0;
    while chunk < n
      invariant chunk <= n && |states| == |initial| && TileState(check, tile, states, chunk)
      invariant groups + RowGroups(n - chunk, cfg) == total
      invariant Fair(meter.stats, cfg)
      invariant Charged(before, meter.stats, ProjectBill(c.Map3Project?, 1, |initial|, chunk, groups))
    {
      var cols := NextColumns(n - chunk, cfg);
      ok, states, bad, groups := TileNext(cfg, m, c, tile, chunk, cols, lanes, meter, states, p, check, before, groups);
      if !ok {
        return;
      }
      chunk := chunk + cols;
    }
    ok := true;
  }

  /** All chunks of a tile: the states end as the results of its rows. */
  method ProjectTile(cfg: Config, m: Memory, c: Command, tile: nat, rows: nat, lanes: array<MinArg>,
                     meter: Meter, ghost p: Shape, ghost check: RowCheck)
    returns (ok: bool, states: seq<MinArg>, ghost bad: nat)
    requires cfg.Valid() && lanes.Length == cfg.lanes && Fair(meter.stats, cfg)
    requires Projection(c) && p == Lower(c)
    requires 0 < rows && tile + rows <= c.matrix.rows && IsRowCheck(check, p, m)
    modifies lanes, meter
    ensures ok ==> |states| == rows && TileState(check, tile, states, c.matrix.columns)
    ensures !ok ==> tile <= bad < tile + rows && Halts(cfg, p, m, bad)
    ensures Fair(meter.stats, cfg)
    ensures ok ==> Charged(old(meter.stats), meter.stats,
                           ProjectBill(c.Map3Project?, 1, rows, c.matrix.columns, RowGroups(c.matrix.columns, cfg)))
  {
    ghost var before, groups := meter.stats, RowGroups(c.matrix.columns, cfg);
    states := InitStates(cfg, tile, rows, meter, p, m, check);
    ghost var now := meter.stats;
    ok, states, bad := TileColumns(cfg, m, c, tile, c.matrix.columns, lanes, meter, states, p, check, groups);
    if ok {
      FreeCharge(before, now, meter.stats, ProjectBill(c.Map3Project?, 1, rows, c.matrix.columns, groups));
    }
  }
}
