/** Semantic commands and when they are well formed (pcaalib/include/pcaa.h and valid_command,
    span, overlap and pcaa_wire_format_size of pcaalib/src/codec.c). */
module Commands {
  import opened Basics
  import opened GuestMemory

  type U64 = x: int | 0 <= x <= 0xffff_ffff_ffff_ffff

  /** Strides count elements: 4-byte costs, or 8-byte pairs for a `pair` output. */
  datatype VectorView = VectorView(base: U64, length: U64, stride: U64)
  datatype MatrixView = MatrixView(base: U64, rows: U64, columns: U64, rowStride: U64, columnStride: U64)
  datatype OutputView = OutputView(base: U64, length: U64, stride: U64, pair: bool)

  datatype Command =
    | Reduce2(argmin: bool, first: VectorView, second: VectorView, result: U64)
    | Reduce3(argmin: bool, first: VectorView, second: VectorView, third: VectorView, result: U64)
    | AddVector(first: VectorView, second: VectorView, output: OutputView)
    | Project(matrix: MatrixView, vector: VectorView, output: OutputView)
    | Map3Project(first: VectorView, second: VectorView, matrix: MatrixView, output: OutputView)
    | Batch(children: U64, count: U64, childBytes: U64, result: U64)

  datatype CodecStatus = Fine | InvalidArgument | InvalidCommand | RangeError | NoSpace

  // -------------------------------------------------------------------- spans

  /** Elements are 4-byte costs or 8-byte pairs. */
  type Width = w: int | w == 4 || w == 8 witness 4

  function Scale(x: nat, width: Width): nat { if width == 4 then 4 * x else 8 * x }

  function Quotient(x: nat, width: Width): nat { if width == 4 then x / 4 else x / 8 }

  /** The end of the smallest address range holding all elements of a strided view. */
  function Span(base: nat, rows: nat, columns: nat, outer: nat, inner: nat, width: Width): Option<nat> {
    if base == 0 || rows == 0 || columns == 0 || inner == 0 || (rows > 1 && outer == 0) then None
    else
      var o, i := Offset(rows - 1, outer), Offset(columns - 1, inner);
      if o + i > UINT64_MAX || base + width > UINT64_MAX
         || o + i > Quotient(UINT64_MAX - base - width, width) then None
      else Some(base + Scale(o + i + 1, width))
  }

  /** The overflow tests accept exactly the views whose last byte is addressable. */
  lemma SpanExact(base: nat, rows: nat, columns: nat, outer: nat, inner: nat, width: Width)
    requires rows > 0 && columns > 0
    ensures var last := Offset(rows - 1, outer) + Offset(columns - 1, inner);
            Span(base, rows, columns, outer, inner, width)
            == if base > 0 && inner > 0 && (rows > 1 ==> outer > 0)
                  && base + Scale(last + 1, width) <= UINT64_MAX
               then Some(base + Scale(last + 1, width)) else None
  {
  }

  function VectorEnd(v: VectorView): Option<nat> { Span(v.base, 1, v.length, 0, v.stride, 4) }

  function MatrixEnd(m: MatrixView): Option<nat> {
    Span(m.base, m.rows, m.columns, m.rowStride, m.columnStride, 4)
  }

  function OutputWidth(out: OutputView): Width { if out.pair then 8 else 4 }

  function OutputEnd(out: OutputView): Option<nat> {
    Span(out.base, 1, out.length, 0, out.stride, OutputWidth(out))
  }

  predicate Fits16(x: nat) { x <= UINT16_MAX }

  /** Does the output view start and step like the input view? */
  predicate Alias(out: OutputView, v: VectorView) { out.base == v.base && out.stride == v.stride }

  predicate Meets(out: OutputView, base: nat, end: Option<nat>) {
    OutputEnd(out).Some? && end.Some? && Overlaps(out.base, OutputEnd(out).value, base, end.value)
  }

  // --------------------------------------------------------------- validation

  function Validate(c: Command): CodecStatus {
    match c
    case Reduce2(argmin, first, second, result) =>
      if !Fits16(first.length) then RangeError
      else if && first.length == second.length && first.stride == 1 && second.stride == 1
              && VectorEnd(first).Some? && VectorEnd(second).Some?
              && Span(result, 1, 1, 0, 1, if argmin then 8 else 4).Some?
      then Fine else InvalidCommand
    case Reduce3(argmin, first, second, third, result) =>
      if !Fits16(first.length) then RangeError
      else if && first.length == second.length && first.length == third.length
              && first.stride == 1 && second.stride == 1 && third.stride == 1
              && VectorEnd(first).Some? && VectorEnd(second).Some? && VectorEnd(third).Some?
              && Span(result, 1, 1, 0, 1, if argmin then 8 else 4).Some?
      then Fine else InvalidCommand
    case AddVector(first, second, output) =>
      if !Fits16(first.length) || !Fits16(first.stride) || !Fits16(second.stride)
         || !Fits16(output.stride) then RangeError
      else if && first.length == second.length && first.length == output.length && !output.pair
              && VectorEnd(first).Some? && VectorEnd(second).Some? && OutputEnd(output).Some?
              && (Meets(output, first.base, VectorEnd(first)) ==> Alias(output, first))
              && (Meets(output, second.base, VectorEnd(second)) ==> Alias(output, second))
      then Fine else InvalidCommand
    case Project(matrix, vector, output) =>
      if !Fits16(matrix.rows) || !Fits16(matrix.columns) || !Fits16(matrix.rowStride)
         || !Fits16(matrix.columnStride) || !Fits16(vector.stride) || !Fits16(output.stride)
      then RangeError
      else if && matrix.columns == vector.length && matrix.rows == output.length && !output.pair
              && MatrixEnd(matrix).Some? && VectorEnd(vector).Some? && OutputEnd(output).Some?
              && !Meets(output, matrix.base, MatrixEnd(matrix))
              && !Meets(output, vector.base, VectorEnd(vector))
      then Fine else InvalidCommand
    case Map3Project(first, second, matrix, output) =>
      if !Fits16(matrix.rows) || !Fits16(matrix.columns) || !Fits16(first.stride)
         || !Fits16(second.stride) || !Fits16(matrix.rowStride) || !Fits16(matrix.columnStride)
         || !Fits16(output.stride) then RangeError
      else if && first.length == matrix.columns && second.length == matrix.columns
              && output.length == matrix.rows && output.pair
              && VectorEnd(first).Some? && VectorEnd(second).Some?
              && MatrixEnd(matrix).Some? && OutputEnd(output).Some?
              && !Meets(output, first.base, VectorEnd(first))
              && !Meets(output, second.base, VectorEnd(second))
              && !Meets(output, matrix.base, MatrixEnd(matrix))
      then Fine else InvalidCommand
    case Batch(children, count, childBytes, result) =>
      if count > UINT32_MAX || childBytes > UINT32_MAX then RangeError
      else if && count != 0 && childBytes != 0 && childBytes % 16 == 0
              && children != 0 && result != 0
              && childBytes <= UINT64_MAX - children && 8 <= UINT64_MAX - result
      then Fine else InvalidCommand
  }

  // ------------------------------------------------------------------ formats

  function Opcode(c: Command): (opcode: nat)
    ensures 1 <= opcode <= 8
  {
    match c
    case Reduce2(argmin, _, _, _) => if argmin then 3 else 1
    case Reduce3(argmin, _, _, _, _) => if argmin then 4 else 2
    case Batch(_, _, _, _) => 5
    case AddVector(_, _, _) => 6
    case Project(_, _, _) => 7
    case Map3Project(_, _, _, _) => 8
  }

  function Format(c: Command): (format: nat)
    ensures 1 <= format <= 9
  {
    match c
    case Reduce2(argmin, _, _, _) => if argmin then 3 else 1
    case Reduce3(argmin, _, _, _, _) => if argmin then 4 else 2
    case Batch(_, _, _, _) => 5
    case AddVector(first, second, output) =>
      if Alias(output, first) || Alias(output, second) then 7 else 6
    case Project(_, _, _) => 8
    case Map3Project(_, _, _, _) => 9
  }

  /** The bytes of a command with this header. */
  function WireSize(opcode: nat, format: nat): Option<nat> {
    if format == 1 && opcode == 1 then Some(32)
    else if format == 3 && opcode == 3 then Some(32)
    else if format == 2 && opcode == 2 then Some(48)
    else if format == 4 && opcode == 4 then Some(48)
    else if format == 5 && opcode == 5 then Some(32)
    else if format == 6 && opcode == 6 then Some(48)
    else if format == 7 && opcode == 6 then Some(32)
    else if format == 8 && opcode == 7 then Some(48)
    else if format == 9 && opcode == 8 then Some(64)
    else None
  }

  function EncodedSize(c: Command): (size: nat)
    ensures WireSize(Opcode(c), Format(c)) == Some(size) && size in {32, 48, 64}
  {
    WireSize(Opcode(c), Format(c)).value
  }
}
