/** The compact command encoding (pcaalib/src/codec.c): little-endian fields at the offsets of
    each format, reserved bytes zero. */
module Codec {
  import opened Basics
  import opened GuestMemory
  import opened Commands

  // ------------------------------------------------------------ field packing

  datatype Field = Field(value: nat, width: nat)

  function Pack(fields: seq<Field>): seq<Byte> {
    if |fields| == 0 then [] else ToBytes(fields[0].value, fields[0].width) + Pack(fields[1..])
  }

  function Extent(widths: seq<nat>): nat {
    if |widths| == 0 then 0 else widths[0] + Extent(widths[1..])
  }

  /** The fields of the given widths, read from the front. */
  function Unpack(bytes: seq<Byte>, widths: seq<nat>): (fields: seq<Field>)
    requires Extent(widths) <= |bytes|
    ensures |fields| == |widths|
  {
    if |widths| == 0 then []
    else [Field(FromBytes(bytes[..widths[0]]), widths[0])] + Unpack(bytes[widths[0]..], widths[1..])
  }

  ghost predicate InWidth(fields: seq<Field>) {
    forall i :: 0 <= i < |fields| ==> fields[i].value < Power(fields[i].width)
  }

  function WidthsOf(fields: seq<Field>): (widths: seq<nat>)
    ensures |widths| == |fields|
  {
    seq(|fields|, i requires 0 <= i < |fields| => fields[i].width)
  }

  lemma {:induction false} PackLength(fields: seq<Field>)
    ensures |Pack(fields)| == Extent(WidthsOf(fields))
  {
    if |fields| > 0 {
      PackLength(fields[1..]);
      assert WidthsOf(fields)[1..] == WidthsOf(fields[1..]);
    }
  }

  /** Unpacking what was packed, whatever follows. */
  lemma {:induction false} UnpackPack(fields: seq<Field>, rest: seq<Byte>)
    requires InWidth(fields)
    ensures Extent(WidthsOf(fields)) <= |Pack(fields) + rest|
    ensures Unpack(Pack(fields) + rest, WidthsOf(fields)) == fields
  {
    PackLength(fields);
    if |fields| > 0 {
      var head, tail := fields[0], fields[1..];
      var bytes := ToBytes(head.value, head.width);
      UnpackPack(tail, rest);
      FromToBytes(head.value, head.width);
      assert WidthsOf(fields)[1..] == WidthsOf(tail);
      assert Pack(fields) + rest == bytes + (Pack(tail) + rest);
      assert (Pack(fields) + rest)[..head.width] == bytes;
      assert (Pack(fields) + rest)[head.width..] == Pack(tail) + rest;
    }
  }

  /** Packing what was unpacked gives the bytes back. */
  lemma {:induction false} PackUnpack(bytes: seq<Byte>, widths: seq<nat>)
    requires Extent(widths) == |bytes|
    ensures Pack(Unpack(bytes, widths)) == bytes
    ensures WidthsOf(Unpack(bytes, widths)) == widths
  {
    if |widths| > 0 {
      var w := widths[0];
      var fields, rest := Unpack(bytes, widths), Unpack(bytes[w..], widths[1..]);
      PackUnpack(bytes[w..], widths[1..]);
      ToFromBytes(bytes[..w]);
      assert fields == [Field(FromBytes(bytes[..w]), w)] + rest;
      assert fields[1..] == rest && fields[0].width == w;
      assert Pack(fields) == ToBytes(fields[0].value, w) + Pack(rest) == bytes[..w] + bytes[w..];
      assert bytes[..w] + bytes[w..] == bytes;
      assert WidthsOf(fields) == [w] + WidthsOf(rest);
      assert widths == [w] + widths[1..];
    }
  }

  lemma {:induction false} UnpackInWidth(bytes: seq<Byte>, widths: seq<nat>)
    requires Extent(widths) <= |bytes|
    ensures InWidth(Unpack(bytes, widths))
  {
    if |widths| > 0 {
      FromBytesBound(bytes[..widths[0]]);
      UnpackInWidth(bytes[widths[0]..], widths[1..]);
    }
  }

  // ------------------------------------------------------------------ layouts

  /** Field widths after opcode, format, flags, n and m; the last field is reserved unless the
      format fills its slots. */
  function Layout(format: nat): seq<nat> {
    [1, 1, 2, 2, 2] +
    if format == 1 || format == 3 then [8, 8, 8]
    else if format == 2 || format == 4 then [8, 8, 8, 8, 8]
    else if format == 5 then [8, 8, 4, 4]
    else if format == 6 then [8, 8, 8, 2, 2, 2, 10]
    else if format == 7 then [8, 8, 2, 2, 4]
    else if format == 8 then [8, 8, 8, 2, 2, 2, 2, 8]
    else if format == 9 then [8, 8, 8, 8, 2, 2, 2, 2, 2, 14]
    else []
  }

  /** The formats fill whole 16-byte slots. */
  lemma LayoutExtent(format: nat)
    requires 1 <= format <= 9
    ensures Extent(Layout(format)) == if format in {1, 3, 5, 7} then 32
                                      else if format in {2, 4, 6, 8} then 48 else 64
  {
    var tail := Layout(format)[5..];
    Extents([1, 1, 2], [2, 2], tail);
    assert Layout(format) == [1, 1, 2] + [2, 2] + tail;
    ExtentOf3(1, 1, 2);
    ExtentOf2(2, 2);
    TailExtent(format, tail);
  }

  lemma TailExtent(format: nat, tail: seq<nat>)
    requires 1 <= format <= 9 && tail == Layout(format)[5..]
    ensures Extent(tail) == if format in {1, 3, 5, 7} then 24 else if format in {2, 4, 6, 8} then 40 else 56
  {
    ExtentOf3(8, 8, 8);
    ExtentOf2(8, 8);
    if format in {1, 3} {
      assert tail == [8, 8, 8];
    } else if format in {2, 4} {
      assert tail == [8, 8, 8] + [8, 8];
      ExtentStep([8, 8, 8], [8, 8]);
    } else if format == 5 {
      assert tail == [8, 8] + [4, 4];
      ExtentStep([8, 8], [4, 4]);
      ExtentOf2(4, 4);
    } else if format == 7 {
      assert tail == [8, 8] + [2, 2, 4];
      ExtentStep([8, 8], [2, 2, 4]);
      ExtentOf3(2, 2, 4);
    } else {
      LongTailExtent(format, tail);
    }
  }

  lemma LongTailExtent(format: nat, tail: seq<nat>)
    requires format in {6, 8, 9} && tail == Layout(format)[5..]
    ensures Extent(tail) == if format == 9 then 56 else 40
  {
    ExtentOf3(8, 8, 8);
    if format == 6 {
      assert tail == [8, 8, 8] + [2, 2] + [2, 10];
      Extents([8, 8, 8], [2, 2], [2, 10]);
      ExtentOf2(2, 2);
      ExtentOf2(2, 10);
    } else if format == 8 {
      assert tail == [8, 8, 8] + [2, 2, 2] + [2, 8];
      Extents([8, 8, 8], [2, 2, 2], [2, 8]);
      ExtentOf3(2, 2, 2);
      ExtentOf2(2, 8);
    } else {
      assert tail == [8, 8, 8] + [8, 2, 2] + ([2, 2] + [2, 14]);
      Extents([8, 8, 8], [8, 2, 2], [2, 2] + [2, 14]);
      ExtentOf3(8, 2, 2);
      ExtentStep([2, 2], [2, 14]);
      ExtentOf2(2, 2);
      ExtentOf2(2, 14);
    }
  }

  lemma {:induction false} ExtentStep(left: seq<nat>, right: seq<nat>)
    ensures Extent(left + right) == Extent(left) + Extent(right)
  {
    if |left| == 0 {
      assert left + right == right;
    } else {
      ExtentStep(left[1..], right);
      assert (left + right)[1..] == left[1..] + right;
    }
  }

  lemma Extents(a: seq<nat>, b: seq<nat>, c: seq<nat>)
    ensures Extent(a + b + c) == Extent(a) + Extent(b) + Extent(c)
  {
    ExtentStep(a, b);
    ExtentStep(a + b, c);
  }

  lemma ExtentOf2(a: nat, b: nat)
    ensures Extent([a, b]) == a + b
  {
    assert [a, b][1..] == [b];
    assert Extent([b]) == b by {
      assert [b][1..] == [];
      assert Extent([]) == 0;
    }
  }

  lemma ExtentOf3(a: nat, b: nat, c: nat)
    ensures Extent([a, b, c]) == a + b + c
  {
    assert [a, b, c][1..] == [b, c];
    ExtentOf2(b, c);
  }

  // --------------------------------------------------------- encode and decode

  /** An output that aliases only the second source is encoded with the sources swapped. */
  function Canonical(c: Command): Command {
    if c.AddVector? && !Alias(c.output, c.first) && Alias(c.output, c.second)
    then AddVector(c.second, c.first, c.output)
    else c
  }

  /** The field values of a canonical command, in layout order. */
  function Values(c: Command): (values: seq<nat>)
    ensures |values| == |Layout(Format(c))|
  {
    match c
    case Reduce2(argmin, first, second, result) =>
      [Opcode(c), Format(c), 0, first.length, 0, first.base, second.base, result]
    case Reduce3(argmin, first, second, third, result) =>
      [Opcode(c), Format(c), 0, first.length, 0, first.base, second.base, third.base, result, 0]
    case Batch(children, count, childBytes, result) =>
      [Opcode(c), Format(c), 0, 0, 0, children, result, count, childBytes]
    case AddVector(first, second, output) =>
      if Format(c) == 7
      then [Opcode(c), Format(c), 0, first.length, 0, first.base, second.base, first.stride, second.stride, 0]
      else [Opcode(c), Format(c), 0, first.length, 0, first.base, second.base, output.base,
            first.stride, second.stride, output.stride, 0]
    case Project(matrix, vector, output) =>
      [Opcode(c), Format(c), 0, matrix.columns, matrix.rows, matrix.base, vector.base, output.base,
       matrix.columnStride, matrix.rowStride, vector.stride, output.stride, 0]
    case Map3Project(first, second, matrix, output) =>
      [Opcode(c), Format(c), 0, matrix.columns, matrix.rows, first.base, second.base, matrix.base,
       output.base, first.stride, second.stride, matrix.columnStride, matrix.rowStride, output.stride, 0]
  }

  function Zip(values: seq<nat>, widths: seq<nat>): (fields: seq<Field>)
    requires |values| == |widths|
    ensures |fields| == |values|
    ensures forall i :: 0 <= i < |fields| ==> fields[i] == Field(values[i], widths[i])
  {
    seq(|values|, i requires 0 <= i < |values| => Field(values[i], widths[i]))
  }

  function Fields(c: Command): seq<Field> { Zip(Values(Canonical(c)), Layout(Format(Canonical(c)))) }

  function Encode(c: Command): seq<Byte> { Pack(Fields(c)) }

  function ToU64(x: nat): U64 { if x <= UINT64_MAX then x else 0 }

  /** The command with these field values, unless reserved fields are set. */
  function FromValues(format: nat, v: seq<nat>): Option<Command>
    requires 1 <= format <= 9 && |v| == |Layout(format)|
  {
    var n, m := ToU64(v[3]), ToU64(v[4]);
    if v[2] != 0 then None
    else if format == 1 || format == 3 then
      if m != 0 then None
      else Some(Reduce2(format == 3, VectorView(ToU64(v[5]), n, 1), VectorView(ToU64(v[6]), n, 1), ToU64(v[7])))
    else if format == 2 || format == 4 then
      if m != 0 || v[9] != 0 then None
      else Some(Reduce3(format == 4, VectorView(ToU64(v[5]), n, 1), VectorView(ToU64(v[6]), n, 1),
                        VectorView(ToU64(v[7]), n, 1), ToU64(v[8])))
    else if format == 5 then
      if n != 0 || m != 0 then None
      else Some(Batch(ToU64(v[5]), ToU64(v[7]), ToU64(v[8]), ToU64(v[6])))
    else if format == 6 then
      if m != 0 || v[11] != 0 then None
      else Some(AddVector(VectorView(ToU64(v[5]), n, ToU64(v[8])), VectorView(ToU64(v[6]), n, ToU64(v[9])),
                          OutputView(ToU64(v[7]), n, ToU64(v[10]), false)))
    else if format == 7 then
      if m != 0 || v[9] != 0 then None
      else Some(AddVector(VectorView(ToU64(v[5]), n, ToU64(v[7])), VectorView(ToU64(v[6]), n, ToU64(v[8])),
                          OutputView(ToU64(v[5]), n, ToU64(v[7]), false)))
    else if format == 8 then
      if v[12] != 0 then None
      else Some(Project(MatrixView(ToU64(v[5]), m, n, ToU64(v[9]), ToU64(v[8])),
                        VectorView(ToU64(v[6]), n, ToU64(v[10])), OutputView(ToU64(v[7]), m, ToU64(v[11]), false)))
    else
      if v[14] != 0 then None
      else Some(Map3Project(VectorView(ToU64(v[5]), n, ToU64(v[9])), VectorView(ToU64(v[6]), n, ToU64(v[10])),
                            MatrixView(ToU64(v[7]), m, n, ToU64(v[12]), ToU64(v[11])),
                            OutputView(ToU64(v[8]), m, ToU64(v[13]), true)))
  }

  function ValuesOf(fields: seq<Field>): (values: seq<nat>)
    ensures |values| == |fields|
    ensures forall i :: 0 <= i < |fields| ==> values[i] == fields[i].value
  {
    seq(|fields|, i requires 0 <= i < |fields| => fields[i].value)
  }

  datatype Decoded = Decoded(command: Command, size: nat)

  /** The command at the front of the bytes and the number of bytes it takes. */
  function Decode(bytes: seq<Byte>): Option<Decoded> {
    if |bytes| < 8 then None
    else
      match WireSize(bytes[0], bytes[1])
      case None => None
      case Some(size) =>
        LayoutExtent(bytes[1]);
        if |bytes| < size then None
        else
          match FromValues(bytes[1], ValuesOf(Unpack(bytes[..size], Layout(bytes[1]))))
          case None => None
          case Some(c) =>
            if Validate(c) == Fine && Opcode(c) == bytes[0] && Format(c) == bytes[1] && EncodedSize(c) == size
            then Some(Decoded(c, size)) else None
  }

  // ------------------------------------------------------------- round trips

  /** Swapping aliased sources keeps validity, opcode and format. */
  lemma CanonicalValid(c: Command)
    requires Validate(c) == Fine
    ensures Validate(Canonical(c)) == Fine
    ensures Opcode(Canonical(c)) == Opcode(c) && Format(Canonical(c)) == Format(c)
    ensures Canonical(Canonical(c)) == Canonical(c)
  {
  }

  lemma FieldsInWidth(c: Command)
    requires Validate(c) == Fine
    ensures InWidth(Fields(c))
  {
    CanonicalValid(c);
    ValuesFit(Canonical(c));
  }

  ghost predicate FitsLayout(values: seq<nat>, widths: seq<nat>) {
    |values| == |widths| && forall i :: 0 <= i < |values| ==> values[i] < Power(widths[i])
  }

  lemma FieldPowers()
    ensures Power(1) == 256 && Power(2) == UINT16_MAX + 1 && Power(4) == UINT32_MAX + 1
    ensures Power(8) == UINT64_MAX + 1 && Power(10) > 0 && Power(14) > 0
  {
    Powers();
    assert Power(1) == 256;
    PowerPositive(10);
    PowerPositive(14);
  }

  lemma ValuesFit(c: Command)
    requires Validate(c) == Fine
    ensures FitsLayout(Values(c), Layout(Format(c)))
  {
    FieldPowers();
    match c
    case Reduce2(_, _, _, _) => assert FitsLayout(Values(c), Layout(Format(c)));
    case Reduce3(_, _, _, _, _) => assert FitsLayout(Values(c), Layout(Format(c)));
    case Batch(_, _, _, _) => assert FitsLayout(Values(c), Layout(Format(c)));
    case AddVector(_, _, _) => AddFits(c);
    case Project(_, _, _) => ProjectFits(c);
    case Map3Project(_, _, _, _) => Map3Fits(c);
  }

  lemma AddFits(c: Command)
    requires Validate(c) == Fine && c.AddVector?
    ensures FitsLayout(Values(c), Layout(Format(c)))
  {
    FieldPowers();
  }

  lemma ProjectFits(c: Command)
    requires Validate(c) == Fine && c.Project?
    ensures FitsLayout(Values(c), Layout(Format(c)))
  {
    FieldPowers();
  }

  lemma Map3Fits(c: Command)
    requires Validate(c) == Fine && c.Map3Project?
    ensures FitsLayout(Values(c), Layout(Format(c)))
  {
    FieldPowers();
  }

  lemma {:induction false} PowerPositive(n: nat)
    ensures Power(n) > 0
  {
    if n > 0 {
      PowerPositive(n - 1);
    }
  }

  lemma ValuesInverse(c: Command)
    requires Validate(c) == Fine && Canonical(c) == c
    ensures FromValues(Format(c), Values(c)) == Some(c)
  {
    match c
    case Reduce2(_, _, _, _) => assert FromValues(Format(c), Values(c)) == Some(c);
    case Reduce3(_, _, _, _, _) => assert FromValues(Format(c), Values(c)) == Some(c);
    case Batch(_, _, _, _) => assert FromValues(Format(c), Values(c)) == Some(c);
    case AddVector(_, _, _) => AddInverse(c);
    case Project(_, _, _) => ProjectInverse(c);
    case Map3Project(_, _, _, _) => ProjectInverse(c);
  }

  lemma AddInverse(c: Command)
    requires Validate(c) == Fine && Canonical(c) == c && c.AddVector?
    ensures FromValues(Format(c), Values(c)) == Some(c)
  {
  }

  lemma ProjectInverse(c: Command)
    requires Validate(c) == Fine && (c.Project? || c.Map3Project?)
    ensures FromValues(Format(c), Values(c)) == Some(c)
  {
  }

  lemma FirstByte(value: nat, rest: seq<Field>)
    requires value < 256
    ensures Pack([Field(value, 1)] + rest) == [value] + Pack(rest)
  {
    assert ([Field(value, 1)] + rest)[1..] == rest;
    assert ToBytes(value, 1) == [value] + ToBytes(value / 256, 0);
  }

  lemma EncodeHeader(c: Command)
    ensures |Encode(c)| >= 2 && Encode(c)[0] == Opcode(Canonical(c)) && Encode(c)[1] == Format(Canonical(c))
  {
    var fields := Fields(c);
    assert fields == [fields[0]] + fields[1..];
    assert fields[1..] == [fields[1]] + fields[2..];
    FirstByte(fields[0].value, fields[1..]);
    FirstByte(fields[1].value, fields[2..]);
  }

  lemma EncodeLength(c: Command)
    ensures |Encode(c)| == EncodedSize(Canonical(c))
  {
    var layout := Layout(Format(Canonical(c)));
    PackLength(Fields(c));
    assert WidthsOf(Fields(c)) == layout;
    LayoutExtent(Format(Canonical(c)));
  }

  /** Decoding an encoded command, whatever follows it, gives the canonical command and the
      bytes it takes. */
  lemma DecodeEncode(c: Command, rest: seq<Byte>)
    requires Validate(c) == Fine
    ensures Decode(Encode(c) + rest) == Some(Decoded(Canonical(c), |Encode(c)|))
  {
    var canonical := Canonical(c);
    CanonicalValid(c);
    EncodeHeader(c);
    EncodeLength(c);
    var bytes := Encode(c) + rest;
    assert bytes[..|Encode(c)|] == Encode(c);
    FieldsInWidth(c);
    UnpackPack(Fields(c), []);
    assert Encode(c) + [] == Encode(c);
    assert WidthsOf(Fields(c)) == Layout(Format(canonical));
    assert ValuesOf(Fields(c)) == Values(canonical);
    ValuesInverse(canonical);
  }

  /** Encoding a decoded command gives back exactly the accepted bytes. */
  lemma EncodeDecode(bytes: seq<Byte>)
    requires Decode(bytes).Some?
    ensures var d := Decode(bytes).value;
            && d.size <= |bytes| && Encode(d.command) == bytes[..d.size]
            && Validate(d.command) == Fine && Canonical(d.command) == d.command
  {
    var d := Decode(bytes).value;
    var format := bytes[1];
    LayoutExtent(format);
    var fields := Unpack(bytes[..d.size], Layout(format));
    UnpackInWidth(bytes[..d.size], Layout(format));
    PackUnpack(bytes[..d.size], Layout(format));
    HeaderFields(bytes[..d.size], Layout(format));
    assert FitsLayout(ValuesOf(fields), Layout(format)) by {
      forall i | 0 <= i < |fields| ensures fields[i].width == Layout(format)[i] {
        assert WidthsOf(fields)[i] == fields[i].width;
      }
    }
    FromValuesInverse(bytes[0], format, ValuesOf(fields));
    assert Fields(d.command) == fields;
  }

  lemma HeaderFields(bytes: seq<Byte>, widths: seq<nat>)
    requires Extent(widths) <= |bytes| && |widths| >= 2 && widths[0] == 1 && widths[1] == 1
    ensures |bytes| >= 2
    ensures Unpack(bytes, widths)[0].value == bytes[0] && Unpack(bytes, widths)[1].value == bytes[1]
  {
    assert Extent(widths) == 1 + Extent(widths[1..]);
    assert Extent(widths[1..]) == 1 + Extent(widths[1..][1..]);
    OneByte(bytes[..1]);
    OneByte(bytes[1..][..1]);
  }

  lemma OneByte(bytes: seq<Byte>)
    requires |bytes| == 1
    ensures FromBytes(bytes) == bytes[0]
  {
    assert bytes[1..] == [];
  }

  /** Only one list of values gives a command of this opcode and format. */
  lemma FromValuesInverse(opcode: nat, format: nat, v: seq<nat>)
    requires 1 <= format <= 9 && FitsLayout(v, Layout(format)) && v[0] == opcode && v[1] == format
    requires FromValues(format, v).Some?
    requires var c := FromValues(format, v).value; Opcode(c) == opcode && Format(c) == format
    ensures var c := FromValues(format, v).value; Canonical(c) == c && Values(c) == v
  {
    FieldPowers();
  }
}
