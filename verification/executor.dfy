/** The functional L0 executor (accelerator/src/accelerator.cpp: read_i32, write_i32,
    execute_command, vector_output, execute_vector_command): element by element over guest
    memory, output by output. */
module Executor {
  import opened Basics
  import opened Costs
  import opened GuestMemory
  import opened Commands
  import opened Semantics

  /** The minimum over one more value. */
  lemma FirstMinAppend(row: seq<int>, value: int)
    ensures FirstMin(row + [value])
            == if |row| == 0 || value < FirstMin(row).value then MinArg(value, |row|) else FirstMin(row)
  {
    assert (row + [value])[..|row|] == row;
  }

  /** A stride in costs is four bytes per element. */
  lemma VectorPlace(v: VectorView, i: nat)
    ensures Place(Along(v), 0, i) == v.base + i * v.stride * 4
  {
    OffsetIsProduct(i, v.stride);
  }

  lemma MatrixPlace(m: MatrixView, o: nat, i: nat)
    ensures Place(Grid(m), o, i) == m.base + (o * m.rowStride + i * m.columnStride) * 4
  {
    OffsetIsProduct(o, m.rowStride);
    OffsetIsProduct(i, m.columnStride);
  }

  method ReadI32(m: Memory, address: nat) returns (value: Option<int>)
    ensures value == CostAt(m, address)
  {
    if !Readable(m, address, 4) {
      return None;
    }
    value := Some(Signed(FromBytes(Bytes(m, address, 4))));
  }

  /** One sum of a reduction; the operands are contiguous. */
  method ReduceElement(m: Memory, c: Command, i: nat) returns (value: Option<int>)
    requires (c.Reduce2? || c.Reduce3?) && c.first.stride == 1 && c.second.stride == 1
    requires c.Reduce3? ==> c.third.stride == 1
    ensures value == Element(Lower(c), m, 0, i)
  {
    VectorPlace(c.first, i);
    VectorPlace(c.second, i);
    var left := ReadI32(m, c.first.base + i * 4);
    var right := ReadI32(m, c.second.base + i * 4);
    value := Joined(left, right);
    if c.Reduce3? {
      VectorPlace(c.third, i);
      var third := ReadI32(m, c.third.base + i * 4);
      value := Joined(value, third);
    }
  }

  /** One sum of output `o` of a vector command. */
  method VectorElement(m: Memory, c: Command, o: nat, i: nat) returns (value: Option<int>)
    requires c.AddVector? || c.Project? || c.Map3Project?
    ensures value == Element(Lower(c), m, o, i)
  {
    if c.AddVector? {
      PlaceFlat(c.first, o, i);
      PlaceFlat(c.second, o, i);
      VectorPlace(c.first, o);
      VectorPlace(c.second, o);
      var first := ReadI32(m, c.first.base + o * c.first.stride * 4);
      var second := ReadI32(m, c.second.base + o * c.second.stride * 4);
      value := Joined(first, second);
    } else if c.Project? {
      MatrixPlace(c.matrix, o, i);
      PlaceFlat(c.vector, o, i);
      VectorPlace(c.vector, i);
      var first := ReadI32(m, c.matrix.base + (o * c.matrix.rowStride + i * c.matrix.columnStride) * 4);
      var second := ReadI32(m, c.vector.base + i * c.vector.stride * 4);
      value := Joined(first, second);
    } else {
      value := Map3Element(m, c, o, i);
    }
  }

  method Map3Element(m: Memory, c: Command, o: nat, i: nat) returns (value: Option<int>)
    requires c.Map3Project?
    ensures value == Element(Lower(c), m, o, i)
  {
    PlaceFlat(c.first, o, i);
    PlaceFlat(c.second, o, i);
    VectorPlace(c.first, i);
    VectorPlace(c.second, i);
    MatrixPlace(c.matrix, o, i);
    var first := ReadI32(m, c.first.base + i * c.first.stride * 4);
    var second := ReadI32(m, c.second.base + i * c.second.stride * 4);
    var third := ReadI32(m, c.matrix.base + (o * c.matrix.rowStride + i * c.matrix.columnStride) * 4);
    value := Joined(Joined(first, second), third);
  }

  /** The minimum and first index of a reduction. */
  method Reduce(m: Memory, c: Command) returns (ok: bool, result: MinArg)
    requires (c.Reduce2? || c.Reduce3?) && c.first.stride == 1 && c.second.stride == 1
    requires c.Reduce3? ==> c.third.stride == 1
    ensures ok <==> RowAccepted(Lower(c), m, 0)
    ensures ok ==> result == Result(Lower(c), m, 0)
  {
    ghost var p := Lower(c);
    result := MinArg(INF, 0);
    for i := 0 to c.first.length
      invariant AcceptedTo(p, m, 0, i) && result == FirstMin(Row(p, m, 0, i))
    {
      var value := ReduceElement(m, c, i);
      if value.None? {
        Refused(p, m, 0, i);
        return false, result;
      }
      FirstMinAppend(Row(p, m, 0, i), value.value);
      if i == 0 || value.value < result.value {
        result := MinArg(value.value, i);
      }
    }
    ok := true;
  }

  /** The minimum and first index of output `o` of a vector command. */
  method VectorOutput(m: Memory, c: Command, o: nat) returns (ok: bool, result: MinArg)
    requires c.AddVector? || c.Project? || c.Map3Project?
    ensures ok <==> RowAccepted(Lower(c), m, o)
    ensures ok ==> result == Result(Lower(c), m, o)
  {
    ghost var p := Lower(c);
    var count := if c.AddVector? then 1 else if c.Project? then c.vector.length else c.first.length;
    result := MinArg(INF, 0);
    for i := 0 to count
      invariant AcceptedTo(p, m, o, i) && result == FirstMin(Row(p, m, o, i))
    {
      var value := VectorElement(m, c, o, i);
      if value.None? {
        Refused(p, m, o, i);
        return false, result;
      }
      FirstMinAppend(Row(p, m, o, i), value.value);
      if i == 0 || value.value < result.value {
        result := MinArg(value.value, i);
      }
    }
    ok := true;
  }

  class L0 {
    var memory: Memory

    constructor (memory: Memory)
      ensures this.memory == memory
    {
      this.memory := memory;
    }

    method Write(address: nat, bytes: seq<Byte>) returns (ok: bool)
      modifies this
      ensures ok <==> Writable(old(memory), address, |bytes|)
      ensures memory == if ok then Stored(old(memory), address, bytes) else old(memory)
    {
      ok := Writable(memory, address, |bytes|);
      if ok {
        memory := Stored(memory, address, bytes);
      }
    }

    /** Outputs in order, each stored before the next is computed. */
    method ExecuteVectorCommand(c: Command) returns (ok: bool)
      requires (c.AddVector? || c.Project? || c.Map3Project?) && c.output.pair == c.Map3Project?
      requires Independent(Lower(c))
      modifies this
      ensures ok <==> Spec(Lower(c), old(memory)).Some?
      ensures ok ==> Some(memory) == Spec(Lower(c), old(memory))
      ensures OnlyOutputs(Lower(c), old(memory), memory)
    {
      ghost var p, m := Lower(c), memory;
      ghost var records := Records(p, m);
      ghost var stage := ProgressOf(p, m, records);
      assert Marked(0, m) && Stage(p, m, records, 0, m);
      ok := StoreOutputs(c, p, m, records, stage);
      assert Marked(p.rows, memory);
    }

    method StoreOutputs(c: Command, ghost p: Shape, ghost m: Memory, ghost records: seq<seq<Byte>>,
                        ghost stage: Progress)
      returns (ok: bool)
      requires (c.AddVector? || c.Project? || c.Map3Project?) && c.output.pair == c.Map3Project?
      requires p == Lower(c) && Independent(p) && records == Records(p, m)
      requires IsProgress(stage, p, m, records) && stage(0, memory)
      modifies this
      ensures ok ==> stage(p.rows, memory)
      ensures !ok ==> !Accepted(p, m) && OnlyOutputs(p, m, memory)
    {
      var o := 0;
      while o < c.output.length
        invariant o <= c.output.length && stage(o, memory)
      {
        ok := StoreOutput(c, o, p, m, records, stage);
        if !ok {
          return;
        }
        o := o + 1;
      }
      ok := true;
    }

    /** Computes and stores one output. */
    method StoreOutput(c: Command, o: nat, ghost p: Shape, ghost m: Memory, ghost records: seq<seq<Byte>>,
                       ghost stage: Progress)
      returns (ok: bool)
      requires (c.AddVector? || c.Project? || c.Map3Project?) && c.output.pair == c.Map3Project?
      requires p == Lower(c) && Independent(p) && o < p.rows && records == Records(p, m)
      requires IsProgress(stage, p, m, records) && stage(o, memory)
      modifies this
      ensures ok ==> stage(o + 1, memory)
      ensures !ok ==> !Accepted(p, m) && OnlyOutputs(p, m, memory)
    {
      ghost var now := memory;
      assert Marked(o, now);
      ResultKept(p, m, records, o);
      WritableKept(p, m, now, o);
      var result;
      ok, result := VectorOutput(memory, c, o);
      if ok {
        var address := OutputAddress(c.output, o, p);
        ok := Write(address, Record(result, c.output.pair));
      }
      if ok {
        StageNext(p, m, records, o, now, memory);
        assert Marked(o + 1, memory);
      } else {
        OutputRefused(p, m, o);
      }
    }

    /** Runs one primitive command. */
    method ExecuteCommand(c: Command) returns (ok: bool)
      requires Validate(c) == Fine
      modifies this
      ensures c.Batch? ==> !ok && memory == old(memory)
      ensures !c.Batch? ==> (ok <==> Spec(Lower(c), old(memory)).Some?)
      ensures ok ==> Some(memory) == Spec(Lower(c), old(memory))
      ensures !c.Batch? ==> OnlyOutputs(Lower(c), old(memory), memory)
    {
      if c.Batch? {
        return false;
      }
      if c.AddVector? || c.Project? || c.Map3Project? {
        ValidIndependent(c);
        ok := ExecuteVectorCommand(c);
        return;
      }
      ok := ExecuteReduce(c);
    }

    method ExecuteReduce(c: Command) returns (ok: bool)
      requires (c.Reduce2? || c.Reduce3?) && c.first.stride == 1 && c.second.stride == 1
      requires c.Reduce3? ==> c.third.stride == 1
      modifies this
      ensures ok <==> Spec(Lower(c), old(memory)).Some?
      ensures ok ==> Some(memory) == Spec(Lower(c), old(memory))
      ensures OnlyOutputs(Lower(c), old(memory), memory)
    {
      ghost var p, m := Lower(c), memory;
      SingleOutput(p, m);
      StoreOnlyOutputs(p, m, m, 0, Record(Result(p, m, 0), p.pair));
      var result;
      ok, result := Reduce(memory, c);
      if ok {
        ok := Write(c.result, Record(result, c.argmin));
      }
    }
  }
}
