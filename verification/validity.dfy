/** Which commands are well formed, told by the bytes they touch (doc/arch.md sections 5 and 7,
    pcaalib/src/codec.c: valid_command), and which a device finds at an address. */
module Validity {
  import opened Basics
  import opened GuestMemory
  import opened Commands
  import opened Codec
  import opened Semantics
  import opened Batches
  import opened WireLayouts
  import opened Meanings

  /** From the first of `count` elements to the last. */
  function Steps(count: nat, stride: nat): nat
    requires count > 0
  {
    (count - 1) * stride
  }

  /** `count` elements of `width` bytes, `stride` apart: not at address zero, and all below 2^64 - 1. */
  predicate Reaches(base: nat, count: nat, stride: nat, width: nat) {
    base > 0 && count > 0 && stride > 0 && base + (Steps(count, stride) + 1) * width <= UINT64_MAX
  }

  /** The same for a matrix; the row stride of a single row does not matter. */
  predicate ReachesRows(base: nat, rows: nat, columns: nat, rowStride: nat, columnStride: nat) {
    && base > 0 && rows > 0 && columns > 0 && columnStride > 0 && (rows > 1 ==> rowStride > 0)
    && base + (Steps(rows, rowStride) + Steps(columns, columnStride) + 1) * 4 <= UINT64_MAX
  }

  /** The span of a strided view, gaps included, from its first byte to behind its last. */
  function Behind(base: nat, count: nat, stride: nat, width: nat): nat
    requires count > 0
  {
    base + (Steps(count, stride) + 1) * width
  }

  function BehindRows(g: MatrixView): nat
    requires g.rows > 0 && g.columns > 0
  {
    g.base + (Steps(g.rows, g.rowStride) + Steps(g.columns, g.columnStride) + 1) * 4
  }

  predicate Separate(a: nat, aEnd: nat, b: nat, bEnd: nat) { aEnd <= b || bEnd <= a }

  lemma VectorReaches(v: VectorView)
    ensures VectorEnd(v).Some? <==> Reaches(v.base, v.length, v.stride, 4)
    ensures VectorEnd(v).Some? ==> VectorEnd(v).value == Behind(v.base, v.length, v.stride, 4)
  {
    if v.length > 0 {
      SpanExact(v.base, 1, v.length, 0, v.stride, 4);
      OffsetIsProduct(v.length - 1, v.stride);
    }
  }

  lemma MatrixReaches(g: MatrixView)
    ensures MatrixEnd(g).Some? <==> ReachesRows(g.base, g.rows, g.columns, g.rowStride, g.columnStride)
    ensures MatrixEnd(g).Some? ==> MatrixEnd(g).value == BehindRows(g)
  {
    if g.rows > 0 && g.columns > 0 {
      SpanExact(g.base, g.rows, g.columns, g.rowStride, g.columnStride, 4);
      OffsetIsProduct(g.rows - 1, g.rowStride);
      OffsetIsProduct(g.columns - 1, g.columnStride);
    }
  }

  lemma OutputReaches(out: OutputView)
    ensures OutputEnd(out).Some? <==> Reaches(out.base, out.length, out.stride, OutputWidth(out))
    ensures OutputEnd(out).Some? ==>
              OutputEnd(out).value == Behind(out.base, out.length, out.stride, OutputWidth(out))
  {
    if out.length > 0 {
      SpanExact(out.base, 1, out.length, 0, out.stride, OutputWidth(out));
      OffsetIsProduct(out.length - 1, out.stride);
    }
  }

  lemma ResultReaches(result: nat, width: Width)
    ensures Span(result, 1, 1, 0, 1, width).Some? <==> result > 0 && result + width <= UINT64_MAX
  {
    SpanExact(result, 1, 1, 0, 1, width);
  }

  /** The operands of a reduction: contiguous, equally long, and not too long for a 16-bit field. */
  predicate Contiguous(v: VectorView, n: nat) {
    v.length == n && v.stride == 1 && n > 0 && v.base > 0 && v.base + 4 * n <= UINT64_MAX
  }

  lemma ContiguousIs(v: VectorView)
    ensures v.stride == 1 && VectorEnd(v).Some? <==> Contiguous(v, v.length)
  {
    VectorReaches(v);
  }

  /** What the documentation demands of a command. */
  predicate WellFormed(c: Command) {
    match c
    case Reduce2(argmin, first, second, result) =>
      && first.length <= 0xffff && Contiguous(first, first.length) && Contiguous(second, first.length)
      && result > 0 && result + (if argmin then 8 else 4) <= UINT64_MAX
    case Reduce3(argmin, first, second, third, result) =>
      && first.length <= 0xffff && Contiguous(first, first.length) && Contiguous(second, first.length)
      && Contiguous(third, first.length) && result > 0 && result + (if argmin then 8 else 4) <= UINT64_MAX
    case AddVector(first, second, output) =>
      && first.length == second.length == output.length <= 0xffff && !output.pair
      && first.stride <= 0xffff && second.stride <= 0xffff && output.stride <= 0xffff
      && Reaches(first.base, first.length, first.stride, 4) && Reaches(second.base, second.length, second.stride, 4)
      && Reaches(output.base, output.length, output.stride, 4)
      && Bearable(first, output) && Bearable(second, output)
    case Project(matrix, vector, output) =>
      && matrix.rows == output.length <= 0xffff && matrix.columns == vector.length <= 0xffff && !output.pair
      && matrix.rowStride <= 0xffff && matrix.columnStride <= 0xffff && vector.stride <= 0xffff
      && output.stride <= 0xffff && Reaches(vector.base, vector.length, vector.stride, 4)
      && ReachesRows(matrix.base, matrix.rows, matrix.columns, matrix.rowStride, matrix.columnStride)
      && Reaches(output.base, output.length, output.stride, 4)
      && Clear(vector, output) && ClearRows(matrix, output)
    case Map3Project(first, second, matrix, output) =>
      && matrix.rows == output.length <= 0xffff && output.pair
      && matrix.columns == first.length == second.length <= 0xffff
      && first.stride <= 0xffff && second.stride <= 0xffff && output.stride <= 0xffff
      && matrix.rowStride <= 0xffff && matrix.columnStride <= 0xffff
      && Reaches(first.base, first.length, first.stride, 4) && Reaches(second.base, second.length, second.stride, 4)
      && ReachesRows(matrix.base, matrix.rows, matrix.columns, matrix.rowStride, matrix.columnStride)
      && Reaches(output.base, output.length, output.stride, 8)
      && Clear(first, output) && Clear(second, output) && ClearRows(matrix, output)
    case Batch(children, count, childBytes, result) =>
      && 0 < count <= 0xffff_ffff && 0 < childBytes <= 0xffff_ffff && childBytes % 16 == 0
      && children > 0 && children + childBytes <= UINT64_MAX && result > 0 && result + 8 <= UINT64_MAX
  }

  /** Output and source spans do not meet. */
  predicate Clear(v: VectorView, out: OutputView) {
    v.length == 0 || out.length == 0
    || Separate(out.base, Behind(out.base, out.length, out.stride, if out.pair then 8 else 4), v.base,
                Behind(v.base, v.length, v.stride, 4))
  }

  predicate ClearRows(g: MatrixView, out: OutputView) {
    g.rows == 0 || g.columns == 0 || out.length == 0
    || Separate(out.base, Behind(out.base, out.length, out.stride, if out.pair then 8 else 4), g.base, BehindRows(g))
  }

  /** An addition may store where a source is, element by element. */
  predicate Bearable(v: VectorView, out: OutputView) {
    Clear(v, out) || (out.base == v.base && out.stride == v.stride)
  }

  lemma MeetsIs(v: VectorView, out: OutputView)
    requires VectorEnd(v).Some? && OutputEnd(out).Some?
    ensures Meets(out, v.base, VectorEnd(v)) <==> !Clear(v, out)
  {
    VectorReaches(v);
    OutputReaches(out);
  }

  lemma MeetsRowsIs(g: MatrixView, out: OutputView)
    requires MatrixEnd(g).Some? && OutputEnd(out).Some?
    ensures Meets(out, g.base, MatrixEnd(g)) <==> !ClearRows(g, out)
  {
    MatrixReaches(g);
    OutputReaches(out);
  }

  lemma ReduceWell(c: Command)
    requires c.Reduce2? || c.Reduce3?
    ensures Validate(c) == Fine <==> WellFormed(c)
  {
    ContiguousIs(c.first);
    ContiguousIs(c.second);
    if c.Reduce3? {
      ContiguousIs(c.third);
    }
    ResultReaches(c.result, if c.argmin then 8 else 4);
  }

  lemma AddWell(c: Command)
    requires c.AddVector?
    ensures Validate(c) == Fine <==> WellFormed(c)
  {
    VectorReaches(c.first);
    VectorReaches(c.second);
    OutputReaches(c.output);
    if VectorEnd(c.first).Some? && VectorEnd(c.second).Some? && OutputEnd(c.output).Some? {
      MeetsIs(c.first, c.output);
      MeetsIs(c.second, c.output);
    }
  }

  lemma ProjectWell(c: Command)
    requires c.Project?
    ensures Validate(c) == Fine <==> WellFormed(c)
  {
    VectorReaches(c.vector);
    MatrixReaches(c.matrix);
    OutputReaches(c.output);
    if VectorEnd(c.vector).Some? && MatrixEnd(c.matrix).Some? && OutputEnd(c.output).Some? {
      MeetsIs(c.vector, c.output);
      MeetsRowsIs(c.matrix, c.output);
    }
  }

  lemma Map3Well(c: Command)
    requires c.Map3Project?
    ensures Validate(c) == Fine <==> WellFormed(c)
  {
    VectorReaches(c.first);
    VectorReaches(c.second);
    MatrixReaches(c.matrix);
    OutputReaches(c.output);
    if VectorEnd(c.first).Some? && VectorEnd(c.second).Some? && MatrixEnd(c.matrix).Some? && OutputEnd(c.output).Some? {
      MeetsIs(c.first, c.output);
      MeetsIs(c.second, c.output);
      MeetsRowsIs(c.matrix, c.output);
    }
  }

  /** The validity tests accept exactly the well-formed commands. */
  lemma ValidExactly(c: Command)
    ensures Validate(c) == Fine <==> WellFormed(c)
  {
    match c
    case Reduce2(_, _, _, _) => ReduceWell(c);
    case Reduce3(_, _, _, _, _) => ReduceWell(c);
    case AddVector(_, _, _) => AddWell(c);
    case Project(_, _, _) => ProjectWell(c);
    case Map3Project(_, _, _, _) => Map3Well(c);
    case Batch(_, _, _, _) =>
  }

  /** A dimension, stride or count that its field of the descriptor cannot hold. */
  predicate Oversized(c: Command) {
    match c
    case Reduce2(_, first, _, _) => first.length > 0xffff
    case Reduce3(_, first, _, _, _) => first.length > 0xffff
    case AddVector(first, second, output) =>
      first.length > 0xffff || first.stride > 0xffff || second.stride > 0xffff || output.stride > 0xffff
    case Project(matrix, vector, output) =>
      || matrix.rows > 0xffff || matrix.columns > 0xffff || matrix.rowStride > 0xffff || matrix.columnStride > 0xffff
      || vector.stride > 0xffff || output.stride > 0xffff
    case Map3Project(first, second, matrix, output) =>
      || matrix.rows > 0xffff || matrix.columns > 0xffff || matrix.rowStride > 0xffff || matrix.columnStride > 0xffff
      || first.stride > 0xffff || second.stride > 0xffff || output.stride > 0xffff
    case Batch(_, count, childBytes, _) => count > 0xffff_ffff || childBytes > 0xffff_ffff
  }

  /** Of the commands that are not well formed, the oversized ones are out of range. */
  lemma StatusExactly(c: Command)
    ensures Validate(c) == if WellFormed(c) then Fine else if Oversized(c) then RangeError else InvalidCommand
  {
    ValidExactly(c);
  }

  // -------------------------------------------------------------------- devices

  /** A device finds a command exactly where all its bytes can be read, within what is available and
      below 2^64, and are the documented descriptor of a well-formed command. */
  lemma FetchExactly(m: Memory, address: nat, available: nat, c: Command, n: nat)
    ensures Fetch(m, address, available) == Some(Decoded(c, n)) <==>
            && address > 0 && n <= available && address + n <= UINT64_MAX && Readable(m, address, n)
            && WellFormed(c) && Documented(c, Bytes(m, address, n)) && Primary(c)
  {
    ValidExactly(c);
    if Readable(m, address, n) {
      DecodesExactly(Bytes(m, address, n), c, n);
      assert Bytes(m, address, n)[..n] == Bytes(m, address, n);
    }
    if Fetch(m, address, available) == Some(Decoded(c, n)) {
      FetchedBytes(m, address, available);
    } else if address > 0 && n <= available && address + n <= UINT64_MAX && Readable(m, address, n)
              && WellFormed(c) && Documented(c, Bytes(m, address, n)) && Primary(c) {
      FetchesBytes(m, address, available, c, n);
    }
  }

  /** An addition in place has its target first. */
  predicate Primary(c: Command) {
    c.AddVector? && c.output.base == c.second.base && c.output.stride == c.second.stride ==>
      c.output.base == c.first.base && c.output.stride == c.first.stride
  }

  lemma FetchedBytes(m: Memory, address: nat, available: nat)
    requires Fetch(m, address, available).Some?
    ensures var d := Fetch(m, address, available).value;
            && address > 0 && d.size <= available && address + d.size <= UINT64_MAX && Readable(m, address, d.size)
            && Decode(Bytes(m, address, d.size)) == Some(d)
  {
    var size := WireSize(ByteAt(m, address), ByteAt(m, address + 1)).value;
    EncodeDecode(Bytes(m, address, size));
  }

  lemma FetchesBytes(m: Memory, address: nat, available: nat, c: Command, n: nat)
    requires address > 0 && n <= available && address + n <= UINT64_MAX && Readable(m, address, n)
    requires Decode(Bytes(m, address, n)) == Some(Decoded(c, n))
    ensures Fetch(m, address, available) == Some(Decoded(c, n))
  {
    var bytes := Bytes(m, address, n);
    assert bytes[0] == ByteAt(m, address) && bytes[1] == ByteAt(m, address + 1);
  }

  /** The protection test finds exactly the outputs that meet a range. */
  lemma {:induction false} HitsTo(p: Shape, begin: nat, end: nat, n: nat)
    ensures Hits(p, begin, end, n) <==>
            exists o :: 0 <= o < n && Overlaps(Slot(p, o), Slot(p, o) + OutWidth(p), begin, end)
  {
    if n > 0 {
      HitsTo(p, begin, end, n - 1);
    }
  }

  /** Some output of a well-formed primitive has bytes in the range. */
  lemma HitsExactly(c: Command, begin: nat, end: nat)
    requires Validate(c) == Fine && !c.Batch?
    ensures Hits(Lower(c), begin, end, Lower(c).rows) <==>
            exists o: nat {:trigger OutputAt(c, o)} ::
              o < Outputs(c) && OutputAt(c, o) < end && begin < OutputAt(c, o) + OutputBytes(c)
  {
    var p := Lower(c);
    ShapeOf(c);
    HitsTo(p, begin, end, p.rows);
    forall o: nat | o < p.rows ensures Slot(p, o) == OutputAt(c, o) {
      SlotIs(c, o);
    }
    if Hits(p, begin, end, p.rows) {
      var o :| 0 <= o < p.rows && Overlaps(Slot(p, o), Slot(p, o) + OutWidth(p), begin, end);
      assert Slot(p, o) == OutputAt(c, o);
    }
    if exists o: nat {:trigger OutputAt(c, o)} ::
         o < Outputs(c) && OutputAt(c, o) < end && begin < OutputAt(c, o) + OutputBytes(c) {
      var o: nat :| o < Outputs(c) && OutputAt(c, o) < end && begin < OutputAt(c, o) + OutputBytes(c);
      assert Overlaps(Slot(p, o), Slot(p, o) + OutWidth(p), begin, end);
    }
  }

  /** A batch is refused at once exactly when its record shares a byte with its stream or descriptor. */
  lemma ConflictsExactly(c: Command, descriptor: nat)
    requires c.Batch? && Validate(c) == Fine
    ensures Conflicts(c, descriptor) <==>
            exists x {:trigger InRecord(c, x)} :: InRecord(c, x)
              && (c.children <= x < c.children + c.childBytes || descriptor <= x < descriptor + 32)
  {
    var first := if c.result < c.children then c.children else c.result;
    var second := if c.result < descriptor then descriptor else c.result;
    assert c.result <= first && c.result <= second;
    if Overlaps(c.result, c.result + 8, c.children, c.children + c.childBytes) {
      assert InRecord(c, first);
    }
    if Overlaps(c.result, c.result + 8, descriptor, descriptor + 32) {
      assert InRecord(c, second);
    }
  }
}
