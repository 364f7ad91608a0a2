/** The documented wire layout (doc/arch.md section 5): which byte of a descriptor holds what. */
module WireLayouts {
  import opened Basics
  import opened GuestMemory
  import opened Commands
  import opened Codec

  // ---------------------------------------------------------------- numbers

  /** Little-endian numbers of two, four and eight bytes. */
  function Number16(b: seq<Byte>, at: nat): nat
    requires at + 2 <= |b|
  {
    var low: nat, high: nat := b[at], b[at + 1];
    low + 0x100 * high
  }

  function Number32(b: seq<Byte>, at: nat): nat
    requires at + 4 <= |b|
  {
    Number16(b, at) + 0x1_0000 * Number16(b, at + 2)
  }

  function Number64(b: seq<Byte>, at: nat): nat
    requires at + 8 <= |b|
  {
    Number32(b, at) + 0x1_0000_0000 * Number32(b, at + 4)
  }

  predicate Zero(b: seq<Byte>, from: nat, end: nat)
    requires end <= |b|
  {
    forall i :: from <= i < end ==> b[i] == 0
  }

  lemma {:induction false} FromBytesSplit(bytes: seq<Byte>, k: nat)
    requires k <= |bytes|
    ensures FromBytes(bytes) == FromBytes(bytes[..k]) + Power(k) * FromBytes(bytes[k..])
  {
    if k == 0 {
      assert bytes[..0] == [] && bytes[0..] == bytes;
    } else {
      FromBytesSplit(bytes[1..], k - 1);
      assert bytes[1..][..k - 1] == bytes[..k][1..] && bytes[1..][k - 1..] == bytes[k..];
      PowerStep(bytes[0], FromBytes(bytes[..k][1..]), k, FromBytes(bytes[k..]));
    }
  }

  lemma PowerStep(first: nat, low: nat, k: nat, high: nat)
    requires k > 0
    ensures first + 256 * (low + Power(k - 1) * high) == first + 256 * low + Power(k) * high
  {
    assert Power(k) == 256 * Power(k - 1);
    assert 256 * (Power(k - 1) * high) == Power(k) * high;
  }

  lemma Number16Is(b: seq<Byte>, at: nat)
    requires at + 2 <= |b|
    ensures FromBytes(b[at..at + 2]) == Number16(b, at)
  {
    var s := b[at..at + 2];
    FromBytesSplit(s, 1);
    OneByte(s[..1]);
    OneByte(s[1..]);
    assert Power(1) == 256;
  }

  lemma Number32Is(b: seq<Byte>, at: nat)
    requires at + 4 <= |b|
    ensures FromBytes(b[at..at + 4]) == Number32(b, at)
  {
    var s := b[at..at + 4];
    FromBytesSplit(s, 2);
    Number16Is(b, at);
    Number16Is(b, at + 2);
    assert s[..2] == b[at..at + 2] && s[2..] == b[at + 2..at + 4];
    Powers();
  }

  lemma Number64Is(b: seq<Byte>, at: nat)
    requires at + 8 <= |b|
    ensures FromBytes(b[at..at + 8]) == Number64(b, at)
  {
    var s := b[at..at + 8];
    FromBytesSplit(s, 4);
    Number32Is(b, at);
    Number32Is(b, at + 4);
    assert s[..4] == b[at..at + 4] && s[4..] == b[at + 4..at + 8];
    Powers();
  }

  lemma {:induction false} FromZeros(bytes: seq<Byte>)
    ensures FromBytes(bytes) == 0 <==> forall i :: 0 <= i < |bytes| ==> bytes[i] == 0
  {
    if |bytes| > 0 {
      FromZeros(bytes[1..]);
      if forall i :: 0 <= i < |bytes| ==> bytes[i] == 0 {
        assert bytes[0] == 0;
      } else if bytes[0] == 0 {
        var i :| 0 <= i < |bytes| && bytes[i] != 0;
        assert bytes[1..][i - 1] != 0;
      }
    }
  }

  lemma ZeroIs(b: seq<Byte>, from: nat, end: nat)
    requires from <= end <= |b|
    ensures FromBytes(b[from..end]) == 0 <==> Zero(b, from, end)
  {
    var s := b[from..end];
    FromZeros(s);
    if forall i :: 0 <= i < |s| ==> s[i] == 0 {
      forall i | from <= i < end ensures b[i] == 0 {
        assert s[i - from] == 0;
      }
    }
  }

  // ----------------------------------------------------------------- layout

  /** Opcode, format, no flags, and both dimensions. */
  predicate Header(b: seq<Byte>, opcode: nat, format: nat, n: nat, m: nat) {
    |b| >= 8 && b[0] == opcode && b[1] == format && Zero(b, 2, 4) && Number16(b, 4) == n && Number16(b, 6) == m
  }

  /** The descriptor that the documentation prescribes for a command. */
  predicate Documented(c: Command, b: seq<Byte>) {
    match c
    case Reduce2(argmin, first, second, result) =>
      var id := if argmin then 3 else 1;
      && |b| == 32 && Header(b, id, id, first.length, 0)
      && Number64(b, 0x08) == first.base && Number64(b, 0x10) == second.base && Number64(b, 0x18) == result
    case Reduce3(argmin, first, second, third, result) =>
      var id := if argmin then 4 else 2;
      && |b| == 48 && Header(b, id, id, first.length, 0)
      && Number64(b, 0x08) == first.base && Number64(b, 0x10) == second.base && Number64(b, 0x18) == third.base
      && Number64(b, 0x20) == result && Zero(b, 0x28, 0x30)
    case Batch(children, count, childBytes, result) =>
      && |b| == 32 && Header(b, 5, 5, 0, 0)
      && Number64(b, 0x08) == children && Number64(b, 0x10) == result
      && Number32(b, 0x18) == count && Number32(b, 0x1c) == childBytes
    case AddVector(first, second, output) =>
      if output.base == first.base && output.stride == first.stride then InPlace(b, first, second)
      else if output.base == second.base && output.stride == second.stride then InPlace(b, second, first)
      else
        && |b| == 48 && Header(b, 6, 6, first.length, 0)
        && Number64(b, 0x08) == first.base && Number64(b, 0x10) == second.base && Number64(b, 0x18) == output.base
        && Number16(b, 0x20) == first.stride && Number16(b, 0x22) == second.stride
        && Number16(b, 0x24) == output.stride && Zero(b, 0x26, 0x30)
    case Project(matrix, vector, output) =>
      && |b| == 48 && Header(b, 7, 8, matrix.columns, matrix.rows)
      && Number64(b, 0x08) == matrix.base && Number64(b, 0x10) == vector.base && Number64(b, 0x18) == output.base
      && Number16(b, 0x20) == matrix.columnStride && Number16(b, 0x22) == matrix.rowStride
      && Number16(b, 0x24) == vector.stride && Number16(b, 0x26) == output.stride && Zero(b, 0x28, 0x30)
    case Map3Project(first, second, matrix, output) =>
      && |b| == 64 && Header(b, 8, 9, matrix.columns, matrix.rows)
      && Number64(b, 0x08) == first.base && Number64(b, 0x10) == second.base && Number64(b, 0x18) == matrix.base
      && Number64(b, 0x20) == output.base
      && Number16(b, 0x28) == first.stride && Number16(b, 0x2a) == second.stride
      && Number16(b, 0x2c) == matrix.columnStride && Number16(b, 0x2e) == matrix.rowStride
      && Number16(b, 0x30) == output.stride && Zero(b, 0x32, 0x40)
  }

  /** The sum goes where the first source is. */
  predicate InPlace(b: seq<Byte>, target: VectorView, other: VectorView) {
    && |b| == 32 && Header(b, 6, 7, target.length, 0)
    && Number64(b, 0x08) == target.base && Number64(b, 0x10) == other.base
    && Number16(b, 0x18) == target.stride && Number16(b, 0x1a) == other.stride && Zero(b, 0x1c, 0x20)
  }

  // ------------------------------------------------------------ fields by place

  function PlaceOf(widths: seq<nat>, i: nat): nat
    requires i <= |widths|
  {
    if i == 0 then 0 else PlaceOf(widths, i - 1) + widths[i - 1]
  }

  lemma {:induction false} PlaceShift(widths: seq<nat>, i: nat)
    requires 0 < i <= |widths|
    ensures PlaceOf(widths, i) == widths[0] + PlaceOf(widths[1..], i - 1)
  {
    if i > 1 {
      PlaceShift(widths, i - 1);
    }
  }

  /** A field is the number in the bytes at its place. */
  lemma {:induction false} UnpackAt(bytes: seq<Byte>, widths: seq<nat>, i: nat)
    requires Extent(widths) <= |bytes| && i < |widths|
    ensures PlaceOf(widths, i) + widths[i] <= |bytes|
    ensures Unpack(bytes, widths)[i].value == FromBytes(bytes[PlaceOf(widths, i)..PlaceOf(widths, i) + widths[i]])
  {
    var w := widths[0];
    if i == 0 {
      assert Unpack(bytes, widths)[0] == Field(FromBytes(bytes[..w]), w);
    } else {
      UnpackAt(bytes[w..], widths[1..], i - 1);
      PlaceShift(widths, i);
      var at := PlaceOf(widths[1..], i - 1);
      assert Unpack(bytes, widths)[i] == Unpack(bytes[w..], widths[1..])[i - 1];
      SliceShift(bytes, w, at, widths[i]);
    }
  }

  lemma SliceShift(bytes: seq<Byte>, w: nat, at: nat, n: nat)
    requires w + at + n <= |bytes|
    ensures bytes[w..][at..at + n] == bytes[w + at..w + at + n]
  {
  }

  function FieldsIn(b: seq<Byte>, format: nat): (values: seq<nat>)
    requires 1 <= format <= 9 && Extent(Layout(format)) == |b|
    ensures |values| == |Layout(format)|
  {
    ValuesOf(Unpack(b, Layout(format)))
  }

  /** The bytes have the size of the format, and field `i` starts at `at`. */
  predicate Laid(b: seq<Byte>, format: nat, i: nat, at: nat) {
    1 <= format <= 9 && Extent(Layout(format)) == |b| && i <= |Layout(format)| && PlaceOf(Layout(format), i) == at
    && (i == |Layout(format)| || at + Layout(format)[i] <= |b|)
  }

  lemma LaidNext(b: seq<Byte>, format: nat, i: nat, at: nat, width: nat)
    requires Laid(b, format, i, at) && i < |Layout(format)| && Layout(format)[i] == width
    ensures Laid(b, format, i + 1, at + width)
    ensures at + width <= |b| && FieldsIn(b, format)[i] == FromBytes(b[at..at + width])
  {
    UnpackAt(b, Layout(format), i);
    if i + 1 < |Layout(format)| {
      UnpackAt(b, Layout(format), i + 1);
    }
  }

  lemma Field8(b: seq<Byte>, format: nat, i: nat, at: nat)
    requires Laid(b, format, i, at) && i < |Layout(format)| && Layout(format)[i] == 1
    ensures Laid(b, format, i + 1, at + 1) && at + 1 <= |b| && FieldsIn(b, format)[i] == b[at]
  {
    LaidNext(b, format, i, at, 1);
    OneByte(b[at..at + 1]);
  }

  lemma Field16(b: seq<Byte>, format: nat, i: nat, at: nat)
    requires Laid(b, format, i, at) && i < |Layout(format)| && Layout(format)[i] == 2
    ensures Laid(b, format, i + 1, at + 2) && at + 2 <= |b| && FieldsIn(b, format)[i] == Number16(b, at)
  {
    LaidNext(b, format, i, at, 2);
    Number16Is(b, at);
  }

  lemma Field32(b: seq<Byte>, format: nat, i: nat, at: nat)
    requires Laid(b, format, i, at) && i < |Layout(format)| && Layout(format)[i] == 4
    ensures Laid(b, format, i + 1, at + 4) && at + 4 <= |b| && FieldsIn(b, format)[i] == Number32(b, at)
  {
    LaidNext(b, format, i, at, 4);
    Number32Is(b, at);
  }

  lemma Field64(b: seq<Byte>, format: nat, i: nat, at: nat)
    requires Laid(b, format, i, at) && i < |Layout(format)| && Layout(format)[i] == 8
    ensures Laid(b, format, i + 1, at + 8) && at + 8 <= |b| && FieldsIn(b, format)[i] == Number64(b, at)
  {
    LaidNext(b, format, i, at, 8);
    Number64Is(b, at);
  }

  lemma FieldZero(b: seq<Byte>, format: nat, i: nat, at: nat, width: nat)
    requires Laid(b, format, i, at) && i < |Layout(format)| && Layout(format)[i] == width
    ensures Laid(b, format, i + 1, at + width) && at + width <= |b|
    ensures FieldsIn(b, format)[i] == 0 <==> Zero(b, at, at + width)
  {
    LaidNext(b, format, i, at, width);
    ZeroIs(b, at, at + width);
  }

  lemma HeaderIs(b: seq<Byte>, format: nat)
    requires 1 <= format <= 9 && Extent(Layout(format)) == |b|
    ensures Laid(b, format, 5, 8) && |b| >= 8
    ensures var v := FieldsIn(b, format);
            forall opcode, n, m :: Header(b, opcode, format, n, m) <==> v[..5] == [opcode, format, 0, n, m]
  {
    var v := FieldsIn(b, format);
    Field8(b, format, 0, 0);
    Field8(b, format, 1, 1);
    FieldZero(b, format, 2, 2, 2);
    Field16(b, format, 3, 4);
    Field16(b, format, 4, 6);
    assert v[..5] == [v[0], v[1], v[2], v[3], v[4]];
  }

  /** Lists of values agree when their heads and every later value do. */
  lemma SameFields(v: seq<nat>, w: seq<nat>)
    requires |v| == |w| >= 5
    ensures v == w <==> v[..5] == w[..5] && forall i :: 5 <= i < |v| ==> v[i] == w[i]
  {
    if v[..5] == w[..5] && forall i :: 5 <= i < |v| ==> v[i] == w[i] {
      forall i | 0 <= i < |v| ensures v[i] == w[i] {
        if i < 5 {
          assert v[..5][i] == w[..5][i];
        }
      }
    }
  }

  lemma ReduceTwoNumbers(b: seq<Byte>, f: nat)
    requires f in {1, 3} && Laid(b, f, 5, 8) && |b| == 32
    ensures var v := FieldsIn(b, f);
            && |v| == 8
            && v[5] == Number64(b, 0x08) && v[6] == Number64(b, 0x10) && v[7] == Number64(b, 0x18)
  {
    Field64(b, f, 5, 0x08);
    Field64(b, f, 6, 0x10);
    Field64(b, f, 7, 0x18);
  }

  lemma ReduceTwoFields(c: Command, b: seq<Byte>)
    requires c.Reduce2? && |b| == 32 && Extent(Layout(Format(c))) == 32
    ensures Documented(c, b) <==> FieldsIn(b, Format(c)) == Values(c)
  {
    HeaderIs(b, Format(c));
    ReduceTwoNumbers(b, Format(c));
    SameFields(FieldsIn(b, Format(c)), Values(c));
  }

  lemma ReduceThreeNumbers(b: seq<Byte>, f: nat)
    requires f in {2, 4} && Laid(b, f, 5, 8) && |b| == 48
    ensures var v := FieldsIn(b, f);
            && |v| == 10
            && v[5] == Number64(b, 0x08) && v[6] == Number64(b, 0x10) && v[7] == Number64(b, 0x18)
            && v[8] == Number64(b, 0x20) && (v[9] == 0 <==> Zero(b, 0x28, 0x30))
  {
    Field64(b, f, 5, 0x08);
    Field64(b, f, 6, 0x10);
    Field64(b, f, 7, 0x18);
    Field64(b, f, 8, 0x20);
    FieldZero(b, f, 9, 0x28, 8);
  }

  lemma ReduceThreeFields(c: Command, b: seq<Byte>)
    requires c.Reduce3? && |b| == 48 && Extent(Layout(Format(c))) == 48
    ensures Documented(c, b) <==> FieldsIn(b, Format(c)) == Values(c)
  {
    HeaderIs(b, Format(c));
    ReduceThreeNumbers(b, Format(c));
    SameFields(FieldsIn(b, Format(c)), Values(c));
  }

  lemma BatchNumbers(b: seq<Byte>, f: nat)
    requires f in {5} && Laid(b, f, 5, 8) && |b| == 32
    ensures var v := FieldsIn(b, f);
            && |v| == 9
            && v[5] == Number64(b, 0x08) && v[6] == Number64(b, 0x10) && v[7] == Number32(b, 0x18)
            && v[8] == Number32(b, 0x1c)
  {
    Field64(b, f, 5, 0x08);
    Field64(b, f, 6, 0x10);
    Field32(b, f, 7, 0x18);
    Field32(b, f, 8, 0x1c);
  }

  lemma BatchFields(c: Command, b: seq<Byte>)
    requires c.Batch? && |b| == 32 && Extent(Layout(Format(c))) == 32
    ensures Documented(c, b) <==> FieldsIn(b, Format(c)) == Values(c)
  {
    HeaderIs(b, Format(c));
    BatchNumbers(b, Format(c));
    SameFields(FieldsIn(b, Format(c)), Values(c));
  }

  lemma GeneralNumbers(b: seq<Byte>, f: nat)
    requires f in {6} && Laid(b, f, 5, 8) && |b| == 48
    ensures var v := FieldsIn(b, f);
            && |v| == 12
            && v[5] == Number64(b, 0x08) && v[6] == Number64(b, 0x10) && v[7] == Number64(b, 0x18)
            && v[8] == Number16(b, 0x20) && v[9] == Number16(b, 0x22) && v[10] == Number16(b, 0x24)
            && (v[11] == 0 <==> Zero(b, 0x26, 0x30))
  {
    Field64(b, f, 5, 0x08);
    Field64(b, f, 6, 0x10);
    Field64(b, f, 7, 0x18);
    Field16(b, f, 8, 0x20);
    Field16(b, f, 9, 0x22);
    Field16(b, f, 10, 0x24);
    FieldZero(b, f, 11, 0x26, 10);
  }

  lemma GeneralFields(c: Command, b: seq<Byte>)
    requires c.AddVector? && Format(c) == 6 && |b| == 48 && Extent(Layout(Format(c))) == 48
    ensures Documented(c, b) <==> FieldsIn(b, Format(c)) == Values(c)
  {
    HeaderIs(b, Format(c));
    GeneralNumbers(b, Format(c));
    SameFields(FieldsIn(b, Format(c)), Values(c));
  }

  lemma InPlaceNumbers(b: seq<Byte>, f: nat)
    requires f in {7} && Laid(b, f, 5, 8) && |b| == 32
    ensures var v := FieldsIn(b, f);
            && |v| == 10
            && v[5] == Number64(b, 0x08) && v[6] == Number64(b, 0x10) && v[7] == Number16(b, 0x18)
            && v[8] == Number16(b, 0x1a) && (v[9] == 0 <==> Zero(b, 0x1c, 0x20))
  {
    Field64(b, f, 5, 0x08);
    Field64(b, f, 6, 0x10);
    Field16(b, f, 7, 0x18);
    Field16(b, f, 8, 0x1a);
    FieldZero(b, f, 9, 0x1c, 4);
  }

  lemma InPlaceFields(c: Command, b: seq<Byte>)
    requires c.AddVector? && Format(c) == 7 && Canonical(c) == c && |b| == 32 && Extent(Layout(Format(c))) == 32
    ensures Documented(c, b) <==> FieldsIn(b, Format(c)) == Values(c)
  {
    HeaderIs(b, Format(c));
    InPlaceNumbers(b, Format(c));
    SameFields(FieldsIn(b, Format(c)), Values(c));
  }

  lemma ProjectNumbers(b: seq<Byte>, f: nat)
    requires f in {8} && Laid(b, f, 5, 8) && |b| == 48
    ensures var v := FieldsIn(b, f);
            && |v| == 13
            && v[5] == Number64(b, 0x08) && v[6] == Number64(b, 0x10) && v[7] == Number64(b, 0x18)
            && v[8] == Number16(b, 0x20) && v[9] == Number16(b, 0x22) && v[10] == Number16(b, 0x24)
            && v[11] == Number16(b, 0x26) && (v[12] == 0 <==> Zero(b, 0x28, 0x30))
  {
    Field64(b, f, 5, 0x08);
    Field64(b, f, 6, 0x10);
    Field64(b, f, 7, 0x18);
    Field16(b, f, 8, 0x20);
    Field16(b, f, 9, 0x22);
    Field16(b, f, 10, 0x24);
    Field16(b, f, 11, 0x26);
    FieldZero(b, f, 12, 0x28, 8);
  }

  lemma ProjectFields(c: Command, b: seq<Byte>)
    requires c.Project? && |b| == 48 && Extent(Layout(Format(c))) == 48
    ensures Documented(c, b) <==> FieldsIn(b, Format(c)) == Values(c)
  {
    HeaderIs(b, Format(c));
    ProjectNumbers(b, Format(c));
    SameFields(FieldsIn(b, Format(c)), Values(c));
  }

  lemma Map3Numbers(b: seq<Byte>, f: nat)
    requires f in {9} && Laid(b, f, 5, 8) && |b| == 64
    ensures var v := FieldsIn(b, f);
            && |v| == 15
            && v[5] == Number64(b, 0x08) && v[6] == Number64(b, 0x10) && v[7] == Number64(b, 0x18)
            && v[8] == Number64(b, 0x20) && v[9] == Number16(b, 0x28) && v[10] == Number16(b, 0x2a)
            && v[11] == Number16(b, 0x2c) && v[12] == Number16(b, 0x2e) && v[13] == Number16(b, 0x30)
            && (v[14] == 0 <==> Zero(b, 0x32, 0x40))
  {
    Field64(b, f, 5, 0x08);
    Field64(b, f, 6, 0x10);
    Field64(b, f, 7, 0x18);
    Field64(b, f, 8, 0x20);
    Field16(b, f, 9, 0x28);
    Field16(b, f, 10, 0x2a);
    Field16(b, f, 11, 0x2c);
    Field16(b, f, 12, 0x2e);
    Field16(b, f, 13, 0x30);
    FieldZero(b, f, 14, 0x32, 14);
  }

  lemma Map3Fields(c: Command, b: seq<Byte>)
    requires c.Map3Project? && |b| == 64 && Extent(Layout(Format(c))) == 64
    ensures Documented(c, b) <==> FieldsIn(b, Format(c)) == Values(c)
  {
    HeaderIs(b, Format(c));
    Map3Numbers(b, Format(c));
    SameFields(FieldsIn(b, Format(c)), Values(c));
  }

  /** The documented bytes are exactly those whose fields are the command's. */
  lemma DocumentedFields(c: Command, b: seq<Byte>)
    requires Canonical(c) == c && |b| == EncodedSize(c)
    ensures Extent(Layout(Format(c))) == |b|
    ensures Documented(c, b) <==> FieldsIn(b, Format(c)) == Values(c)
  {
    LayoutExtent(Format(c));
    match c
    case Reduce2(_, _, _, _) => ReduceTwoFields(c, b);
    case Reduce3(_, _, _, _, _) => ReduceThreeFields(c, b);
    case Batch(_, _, _, _) => BatchFields(c, b);
    case AddVector(_, _, _) => if Format(c) == 6 { GeneralFields(c, b); } else { InPlaceFields(c, b); }
    case Project(_, _, _) => ProjectFields(c, b);
    case Map3Project(_, _, _, _) => Map3Fields(c, b);
  }

  lemma DocumentedSize(c: Command, b: seq<Byte>)
    requires Documented(c, b)
    ensures |b| == EncodedSize(Canonical(c))
  {
  }

  lemma DocumentedCanonical(c: Command, b: seq<Byte>)
    requires Validate(c) == Fine
    ensures Documented(c, b) <==> Documented(Canonical(c), b)
  {
  }

  /** The encoding of a valid command is the documented descriptor, and the only one. */
  lemma EncodesExactly(c: Command, b: seq<Byte>)
    requires Validate(c) == Fine
    ensures Documented(c, b) <==> b == Encode(c)
  {
    var d := Canonical(c);
    CanonicalValid(c);
    DocumentedCanonical(c, b);
    EncodeLength(c);
    assert Encode(d) == Encode(c);
    if |b| == EncodedSize(d) {
      DocumentedFields(d, b);
      if b == Encode(d) {
        FieldsEncoded(d);
      } else if Documented(d, b) {
        EncodedFields(d, b);
      }
    } else if Documented(d, b) {
      DocumentedSize(d, b);
    }
  }

  lemma FieldsEncoded(c: Command)
    requires Validate(c) == Fine && Canonical(c) == c && Extent(Layout(Format(c))) == |Encode(c)|
    ensures FieldsIn(Encode(c), Format(c)) == Values(c)
  {
    FieldsInWidth(c);
    UnpackPack(Fields(c), []);
    assert Encode(c) + [] == Encode(c);
    assert WidthsOf(Fields(c)) == Layout(Format(c));
  }

  lemma EncodedFields(c: Command, b: seq<Byte>)
    requires Canonical(c) == c && Extent(Layout(Format(c))) == |b| && FieldsIn(b, Format(c)) == Values(c)
    ensures b == Encode(c)
  {
    var fields, layout := Unpack(b, Layout(Format(c))), Layout(Format(c));
    PackUnpack(b, layout);
    forall i | 0 <= i < |fields| ensures fields[i] == Fields(c)[i] {
      assert WidthsOf(fields)[i] == fields[i].width;
      assert FieldsIn(b, Format(c))[i] == fields[i].value;
    }
    assert fields == Fields(c);
  }

  /** The decoder accepts exactly the documented descriptors of valid commands, at the front of
      whatever follows; an addition in place is read with its target first. */
  lemma DecodesExactly(bytes: seq<Byte>, c: Command, n: nat)
    ensures Decode(bytes) == Some(Decoded(c, n)) <==>
            && n <= |bytes| && Validate(c) == Fine && Documented(c, bytes[..n])
            && (c.AddVector? && c.output.base == c.second.base && c.output.stride == c.second.stride ==>
                  c.output.base == c.first.base && c.output.stride == c.first.stride)
  {
    if Decode(bytes) == Some(Decoded(c, n)) {
      EncodeDecode(bytes);
      EncodesExactly(c, bytes[..n]);
    }
    if n <= |bytes| && Validate(c) == Fine && Documented(c, bytes[..n]) && Canonical(c) == c {
      EncodesExactly(c, bytes[..n]);
      DecodeEncode(c, bytes[n..]);
      assert Encode(c) + bytes[n..] == bytes;
    }
  }
}
