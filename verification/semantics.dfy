/** What a primitive command means (doc/arch.md section 8): every output is computed from the
    memory before the command, and all outputs are stored. */
module Semantics {
  import opened Basics
  import opened Costs
  import opened GuestMemory
  import opened Commands

  // ---------------------------------------------------------- lowered commands

  /** Costs at `base + 4 * (row * rowStep + column * columnStep)`. */
  datatype Operand = Operand(base: nat, rowStep: nat, columnStep: nat)

  function Place(op: Operand, o: nat, i: nat): nat {
    op.base + 4 * (Offset(o, op.rowStep) + Offset(i, op.columnStep))
  }

  /** `rows` outputs, each the minimum over `columns` sums of two or three operands. */
  datatype Shape = Shape(rows: nat, columns: nat, first: Operand, second: Operand,
                         third: Option<Operand>, base: nat, stride: nat, pair: bool)

  function OutWidth(p: Shape): Width { if p.pair then 8 else 4 }

  function Slot(p: Shape, o: nat): nat { p.base + Scale(Offset(o, p.stride), OutWidth(p)) }

  function Along(v: VectorView): Operand { Operand(v.base, 0, v.stride) }

  function Down(v: VectorView): Operand { Operand(v.base, v.stride, 0) }

  function Grid(m: MatrixView): Operand { Operand(m.base, m.rowStride, m.columnStride) }

  function Lower(c: Command): Shape
    requires !c.Batch?
  {
    match c
    case Reduce2(argmin, first, second, result) =>
      Shape(1, first.length, Along(first), Along(second), None, result, 1, argmin)
    case Reduce3(argmin, first, second, third, result) =>
      Shape(1, first.length, Along(first), Along(second), Some(Along(third)), result, 1, argmin)
    case AddVector(first, second, output) =>
      Shape(output.length, 1, Down(first), Down(second), None, output.base, output.stride, false)
    case Project(matrix, vector, output) =>
      Shape(output.length, vector.length, Grid(matrix), Along(vector), None, output.base, output.stride, false)
    case Map3Project(first, second, matrix, output) =>
      Shape(output.length, first.length, Along(first), Along(second), Some(Grid(matrix)),
            output.base, output.stride, true)
  }

  // ------------------------------------------------------------------ meaning

  /** The signed cost stored at an address, if all its bytes can be read. */
  function CostAt(m: Memory, address: nat): Option<int> {
    if Readable(m, address, 4) then Some(Signed(FromBytes(Bytes(m, address, 4)))) else None
  }

  /** A checked sum of what can be read. */
  function Joined(a: Option<int>, b: Option<int>): Option<int> {
    if a.None? || b.None? then None
    else
      match AddChecked(a.value, b.value)
      case Sum(value) => Some(value)
      case Rejected => None
  }

  function Element(p: Shape, m: Memory, o: nat, i: nat): Option<int> {
    var sum := Joined(CostAt(m, Place(p.first, o, i)), CostAt(m, Place(p.second, o, i)));
    if p.third.None? then sum else Joined(sum, CostAt(m, Place(p.third.value, o, i)))
  }

  function ValueOf(x: Option<int>): int { if x.Some? then x.value else 0 }

  /** The sums of output `o` over the first `n` columns. */
  function Row(p: Shape, m: Memory, o: nat, n: nat): (row: seq<int>)
    ensures |row| == n
  {
    if n == 0 then [] else Row(p, m, o, n - 1) + [ValueOf(Element(p, m, o, n - 1))]
  }

  function Result(p: Shape, m: Memory, o: nat): MinArg { FirstMin(Row(p, m, o, p.columns)) }

  function Word(value: int): nat {
    if -0x8000_0000 <= value < 0x8000_0000 then Unsigned(value) else 0
  }

  function Record(r: MinArg, pair: bool): (bytes: seq<Byte>)
    ensures |bytes| == if pair then 8 else 4
  {
    if pair then ToBytes(Word(r.value), 4) + ToBytes(r.index, 4) else ToBytes(Word(r.value), 4)
  }

  /** The record of every output. */
  function Records(p: Shape, m: Memory): (records: seq<seq<Byte>>)
    ensures |records| == p.rows
    ensures forall o {:trigger records[o]} :: 0 <= o < p.rows ==> |records[o]| == OutWidth(p)
  {
    seq(p.rows, o requires 0 <= o => Record(Result(p, m, o), p.pair))
  }

  /** The memory after the first `k` records have been stored. */
  function StoreAll(p: Shape, m: Memory, records: seq<seq<Byte>>, k: nat): (r: Memory)
    requires k <= |records|
    ensures r.cells.Keys == m.cells.Keys && r.rom == m.rom
  {
    if k == 0 then m else Stored(StoreAll(p, m, records, k - 1), Slot(p, k - 1), records[k - 1])
  }

  /** The first `n` elements of output `o` can be read and added. */
  ghost predicate AcceptedTo(p: Shape, m: Memory, o: nat, n: nat) {
    n == 0 || (AcceptedTo(p, m, o, n - 1) && Element(p, m, o, n - 1).Some?)
  }

  lemma {:induction false} AcceptedPrefix(p: Shape, m: Memory, o: nat, k: nat, n: nat)
    requires k <= n && AcceptedTo(p, m, o, n)
    ensures AcceptedTo(p, m, o, k)
  {
    if k < n {
      AcceptedPrefix(p, m, o, k, n - 1);
    }
  }

  ghost predicate RowAccepted(p: Shape, m: Memory, o: nat) { AcceptedTo(p, m, o, p.columns) }

  ghost predicate OutputAccepted(p: Shape, m: Memory, o: nat) {
    RowAccepted(p, m, o) && Writable(m, Slot(p, o), OutWidth(p))
  }

  ghost predicate AcceptedRows(p: Shape, m: Memory, k: nat) {
    k == 0 || (AcceptedRows(p, m, k - 1) && OutputAccepted(p, m, k - 1))
  }

  lemma {:induction false} AcceptedRowsPrefix(p: Shape, m: Memory, k: nat, n: nat)
    requires k <= n && AcceptedRows(p, m, n)
    ensures AcceptedRows(p, m, k)
  {
    if k < n {
      AcceptedRowsPrefix(p, m, k, n - 1);
    }
  }

  /** Every element can be read and added and every output stored. */
  ghost predicate Accepted(p: Shape, m: Memory) { AcceptedRows(p, m, p.rows) }

  /** One bad output makes the command fail. */
  lemma OutputRefused(p: Shape, m: Memory, o: nat)
    requires o < p.rows && !OutputAccepted(p, m, o)
    ensures !Accepted(p, m)
  {
    if Accepted(p, m) {
      AcceptedRowsPrefix(p, m, o + 1, p.rows);
    }
  }

  /** The memory a successful command leaves; None if it must fail. */
  ghost function Spec(p: Shape, m: Memory): Option<Memory> {
    if Accepted(p, m) then Some(StoreAll(p, m, Records(p, m), p.rows)) else None
  }

  predicate InSlot(p: Shape, o: nat, x: int) { Slot(p, o) <= x < Slot(p, o) + OutWidth(p) }

  /** The bytes a command may store to. */
  ghost predicate Touched(p: Shape, x: int) { exists o :: 0 <= o < p.rows && InSlot(p, o, x) }

  /** Nothing but outputs of the command differs. */
  ghost predicate OnlyOutputs(p: Shape, before: Memory, after: Memory) {
    && after.cells.Keys == before.cells.Keys && after.rom == before.rom
    && forall x {:trigger Touched(p, x)} :: x in before.cells && !Touched(p, x) ==>
         ByteAt(after, x) == ByteAt(before, x)
  }

  lemma {:induction false} StoreAllOnlyOutputs(p: Shape, m: Memory, records: seq<seq<Byte>>, k: nat)
    requires k <= |records| && k <= p.rows
    requires forall o {:trigger records[o]} :: 0 <= o < |records| ==> |records[o]| == OutWidth(p)
    ensures OnlyOutputs(p, m, StoreAll(p, m, records, k))
  {
    if k > 0 {
      StoreAllOnlyOutputs(p, m, records, k - 1);
      StoreOnlyOutputs(p, m, StoreAll(p, m, records, k - 1), k - 1, records[k - 1]);
    }
  }

  /** Storing at most an output's bytes from its start touches only outputs. */
  lemma StoreOnlyOutputs(p: Shape, m: Memory, r: Memory, o: nat, bytes: seq<Byte>)
    requires OnlyOutputs(p, m, r) && o < p.rows && |bytes| <= OutWidth(p)
    ensures OnlyOutputs(p, m, Stored(r, Slot(p, o), bytes))
  {
    var t := Stored(r, Slot(p, o), bytes);
    forall x | x in m.cells && !Touched(p, x) ensures ByteAt(t, x) == ByteAt(m, x) {
      assert !InSlot(p, o, x);
      assert ByteAt(t, x) == ByteAt(r, x);
    }
  }

  // ------------------------------------------------------------- independence

  /** Output `q` does not touch the operand's cost for output `o` and column `i`. */
  predicate Clear(p: Shape, op: Operand, q: nat, o: nat, i: nat) {
    !Overlaps(Slot(p, q), Slot(p, q) + OutWidth(p), Place(op, o, i), Place(op, o, i) + 4)
  }

  ghost predicate Unharmed(p: Shape, op: Operand) {
    forall q, o, i {:trigger Clear(p, op, q, o, i)} ::
      0 <= q < o < p.rows && 0 <= i < p.columns ==> Clear(p, op, q, o, i)
  }

  /** No output is an operand of a later one. */
  ghost predicate Independent(p: Shape) {
    Unharmed(p, p.first) && Unharmed(p, p.second) && (p.third.Some? ==> Unharmed(p, p.third.value))
  }

  lemma CostKept(m: Memory, r: Memory, address: nat)
    requires r.cells.Keys == m.cells.Keys
    requires forall x :: address <= x < address + 4 ==> ByteAt(r, x) == ByteAt(m, x)
    ensures CostAt(r, address) == CostAt(m, address)
  {
    assert Readable(r, address, 4) <==> Readable(m, address, 4);
    assert Bytes(r, address, 4) == Bytes(m, address, 4);
  }

  lemma {:induction false} OperandKept(p: Shape, m: Memory, records: seq<seq<Byte>>, op: Operand,
                                       k: nat, o: nat, i: nat)
    requires k <= |records|
    requires forall q {:trigger records[q]} :: 0 <= q < |records| ==> |records[q]| == OutWidth(p)
    requires Unharmed(p, op) && k <= o < p.rows && i < p.columns
    ensures CostAt(StoreAll(p, m, records, k), Place(op, o, i)) == CostAt(m, Place(op, o, i))
    decreases k
  {
    if k > 0 {
      OperandKept(p, m, records, op, k - 1, o, i);
      assert Clear(p, op, k - 1, o, i);
      StoreKeepsCost(StoreAll(p, m, records, k - 1), Slot(p, k - 1), records[k - 1], Place(op, o, i));
    }
  }

  lemma StoreKeepsCost(m: Memory, address: nat, bytes: seq<Byte>, a: nat)
    requires !Overlaps(address, address + |bytes|, a, a + 4)
    ensures CostAt(Stored(m, address, bytes), a) == CostAt(m, a)
  {
    var r := Stored(m, address, bytes);
    forall x | a <= x < a + 4 ensures ByteAt(r, x) == ByteAt(m, x) {
      assert x in m.cells ==> ByteAt(r, x) == ByteAt(m, x);
    }
    CostKept(m, r, a);
  }

  /** Storing outputs does not change what later outputs are computed from. */
  lemma ElementKept(p: Shape, m: Memory, records: seq<seq<Byte>>, k: nat, o: nat, i: nat)
    requires k <= |records|
    requires forall q {:trigger records[q]} :: 0 <= q < |records| ==> |records[q]| == OutWidth(p)
    requires Independent(p) && k <= o < p.rows && i < p.columns
    ensures Element(p, StoreAll(p, m, records, k), o, i) == Element(p, m, o, i)
  {
    OperandKept(p, m, records, p.first, k, o, i);
    OperandKept(p, m, records, p.second, k, o, i);
    if p.third.Some? {
      OperandKept(p, m, records, p.third.value, k, o, i);
    }
  }

  ghost predicate Sized(p: Shape, records: seq<seq<Byte>>) {
    |records| == p.rows && forall o {:trigger records[o]} :: 0 <= o < p.rows ==> |records[o]| == OutWidth(p)
  }

  /** Storing earlier outputs changes neither whether a row is accepted nor its sums. */
  lemma {:induction false} RowKept(p: Shape, m: Memory, records: seq<seq<Byte>>, k: nat, o: nat, n: nat)
    requires Sized(p, records) && Independent(p) && k <= o < p.rows && n <= p.columns
    ensures AcceptedTo(p, StoreAll(p, m, records, k), o, n) <==> AcceptedTo(p, m, o, n)
    ensures Row(p, StoreAll(p, m, records, k), o, n) == Row(p, m, o, n)
    decreases n
  {
    if n > 0 {
      RowKept(p, m, records, k, o, n - 1);
      ElementKept(p, m, records, k, o, n - 1);
    }
  }

  /** What output `o` is computed to, after earlier outputs have been stored. */
  lemma ResultKept(p: Shape, m: Memory, records: seq<seq<Byte>>, o: nat)
    requires Sized(p, records) && Independent(p) && o < p.rows
    ensures RowAccepted(p, StoreAll(p, m, records, o), o) <==> RowAccepted(p, m, o)
    ensures Result(p, StoreAll(p, m, records, o), o) == Result(p, m, o)
  {
    RowKept(p, m, records, o, o, p.columns);
  }

  lemma StoreNext(p: Shape, m: Memory, records: seq<seq<Byte>>, o: nat)
    requires records == Records(p, m) && o < p.rows
    ensures StoreAll(p, m, records, o + 1)
            == Stored(StoreAll(p, m, records, o), Slot(p, o), Record(Result(p, m, o), p.pair))
  {
  }

  /** A command with a single output. */
  lemma SingleOutput(p: Shape, m: Memory)
    requires p.rows == 1
    ensures Slot(p, 0) == p.base
    ensures Accepted(p, m) <==> RowAccepted(p, m, 0) && Writable(m, p.base, OutWidth(p))
    ensures StoreAll(p, m, Records(p, m), 1) == Stored(m, p.base, Record(Result(p, m, 0), p.pair))
  {
    var records := Records(p, m);
    assert Offset(0, p.stride) == 0;
    StoreNext(p, m, records, 0);
    assert StoreAll(p, m, records, 0) == m;
    assert AcceptedRows(p, m, 0);
    assert AcceptedRows(p, m, 1) <==> OutputAccepted(p, m, 0);
  }

  lemma WritableKept(p: Shape, m: Memory, r: Memory, o: nat)
    requires r.cells.Keys == m.cells.Keys && r.rom == m.rom
    ensures Writable(r, Slot(p, o), OutWidth(p)) <==> Writable(m, Slot(p, o), OutWidth(p))
  {
  }

  /** The memory while outputs are written back: the first `k` are stored, and nothing but outputs
      has changed since `m`. */
  ghost predicate Stage(p: Shape, m: Memory, records: seq<seq<Byte>>, k: nat, now: Memory) {
    && k <= p.rows == |records| && now == StoreAll(p, m, records, k) && AcceptedRows(p, m, k)
    && OnlyOutputs(p, m, now)
  }

  type Progress = (nat, Memory) -> bool

  ghost predicate Marked(k: nat, now: Memory) { true }

  /** `stage(k, now)` says that `now` is the memory after the first `k` outputs. */
  ghost predicate IsProgress(stage: Progress, p: Shape, m: Memory, records: seq<seq<Byte>>) {
    forall k, now {:trigger Marked(k, now)} :: Marked(k, now) ==> stage(k, now) == Stage(p, m, records, k, now)
  }

  ghost function ProgressOf(p: Shape, m: Memory, records: seq<seq<Byte>>): (stage: Progress)
    ensures IsProgress(stage, p, m, records)
  {
    (k: nat, now: Memory) => Stage(p, m, records, k, now)
  }

  lemma StageNext(p: Shape, m: Memory, records: seq<seq<Byte>>, k: nat, now: Memory, after: Memory)
    requires Stage(p, m, records, k, now) && k < p.rows && records == Records(p, m)
    requires OutputAccepted(p, m, k)
    requires after == Stored(now, Slot(p, k), Record(Result(p, m, k), p.pair))
    ensures Stage(p, m, records, k + 1, after)
  {
    StoreNext(p, m, records, k);
    StoreOnlyOutputs(p, m, now, k, Record(Result(p, m, k), p.pair));
  }

  /** A refused element makes the whole row fail. */
  lemma Refused(p: Shape, m: Memory, o: nat, i: nat)
    requires i < p.columns && Element(p, m, o, i).None?
    ensures !RowAccepted(p, m, o)
  {
    if RowAccepted(p, m, o) {
      AcceptedPrefix(p, m, o, i + 1, p.columns);
    }
  }

  method OutputAddress(out: OutputView, o: nat, ghost p: Shape) returns (address: nat)
    requires p.base == out.base && p.stride == out.stride && p.pair == out.pair
    ensures address == Slot(p, o)
  {
    OffsetIsProduct(o, p.stride);
    address := out.base + o * out.stride * OutputWidth(out);
  }

  // ----------------------------------------------- valid commands are independent

  lemma VectorWithin(v: VectorView, i: nat)
    requires VectorEnd(v).Some? && i < v.length
    ensures v.base <= Place(Along(v), 0, i) && Place(Along(v), 0, i) + 4 <= VectorEnd(v).value
    ensures v.base > 0 && VectorEnd(v).value <= UINT64_MAX && v.stride > 0
  {
    OffsetMonotone(i, v.length - 1, v.stride);
    SpanExact(v.base, 1, v.length, 0, v.stride, 4);
  }

  /** A vector operand does not depend on the output, an added one on the column. */
  lemma PlaceFlat(v: VectorView, o: nat, i: nat)
    ensures Place(Along(v), o, i) == Place(Along(v), 0, i)
    ensures Place(Down(v), o, i) == Place(Along(v), 0, o)
  {
    OffsetUnit(o);
    OffsetUnit(i);
  }

  lemma MatrixWithin(m: MatrixView, o: nat, i: nat)
    requires MatrixEnd(m).Some? && o < m.rows && i < m.columns
    ensures m.base <= Place(Grid(m), o, i) && Place(Grid(m), o, i) + 4 <= MatrixEnd(m).value
    ensures m.base > 0 && MatrixEnd(m).value <= UINT64_MAX
  {
    OffsetMonotone(o, m.rows - 1, m.rowStride);
    OffsetMonotone(i, m.columns - 1, m.columnStride);
    SpanExact(m.base, m.rows, m.columns, m.rowStride, m.columnStride, 4);
  }

  lemma OutputWithin(p: Shape, out: OutputView, o: nat)
    requires OutputEnd(out).Some? && p.base == out.base && p.stride == out.stride && p.pair == out.pair
    requires o < out.length
    ensures out.base <= Slot(p, o) && Slot(p, o) + OutWidth(p) <= OutputEnd(out).value
    ensures out.base > 0 && OutputEnd(out).value <= UINT64_MAX
  {
    OffsetMonotone(o, out.length - 1, out.stride);
    SpanExact(out.base, 1, out.length, 0, out.stride, OutputWidth(out));
  }

  /** Elements of one strided view with different indices are disjoint. */
  lemma StrideApart(base: nat, stride: nat, q: nat, o: nat)
    requires q < o && stride > 0
    ensures base + 4 * Offset(q, stride) + 4 <= base + 4 * Offset(o, stride)
  {
    OffsetMonotone(q, o, stride);
  }

  lemma AddedUnharmed(c: Command, v: VectorView)
    requires Validate(c) == Fine && c.AddVector? && (v == c.first || v == c.second)
    ensures Unharmed(Lower(c), Down(v))
  {
    var p := Lower(c);
    forall q, o, i | 0 <= q < o < p.rows && 0 <= i < p.columns ensures Clear(p, Down(v), q, o, i) {
      PlaceFlat(v, o, i);
      VectorWithin(v, o);
      OutputWithin(p, c.output, q);
      if Alias(c.output, v) {
        StrideApart(v.base, v.stride, q, o);
      }
    }
  }

  lemma VectorUnharmed(c: Command, v: VectorView)
    requires Validate(c) == Fine && (c.Project? || c.Map3Project?)
    requires if c.Project? then v == c.vector else v == c.first || v == c.second
    ensures Unharmed(Lower(c), Along(v))
  {
    var p := Lower(c);
    forall q, o, i | 0 <= q < o < p.rows && 0 <= i < p.columns ensures Clear(p, Along(v), q, o, i) {
      PlaceFlat(v, o, i);
      VectorWithin(v, i);
      OutputWithin(p, c.output, q);
    }
  }

  lemma MatrixUnharmed(c: Command)
    requires Validate(c) == Fine && (c.Project? || c.Map3Project?)
    ensures Unharmed(Lower(c), Grid(c.matrix))
  {
    var p := Lower(c);
    forall q, o, i | 0 <= q < o < p.rows && 0 <= i < p.columns
      ensures Clear(p, Grid(c.matrix), q, o, i)
    {
      MatrixWithin(c.matrix, o, i);
      OutputWithin(p, c.output, q);
    }
  }

  /** The validity rules make every output independent of the order of execution, exact in-place
      vector addition included. */
  lemma ValidIndependent(c: Command)
    requires Validate(c) == Fine && !c.Batch?
    ensures Independent(Lower(c))
  {
    match c
    case Reduce2(_, _, _, _) =>
    case Reduce3(_, _, _, _, _) =>
    case AddVector(first, second, _) =>
      AddedUnharmed(c, first);
      AddedUnharmed(c, second);
    case Project(_, vector, _) =>
      MatrixUnharmed(c);
      VectorUnharmed(c, vector);
    case Map3Project(first, second, _, _) =>
      VectorUnharmed(c, first);
      VectorUnharmed(c, second);
      MatrixUnharmed(c);
  }
}
