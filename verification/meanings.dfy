/** What a completed primitive command leaves in memory, in the terms of its documentation (doc/arch.md
    section 8): which costs are added, which sum is least and where it is stored. */
module Meanings {
  import opened Basics
  import opened Costs
  import opened GuestMemory
  import opened Commands
  import opened Semantics
  import opened WireLayouts

  // ------------------------------------------------------------------ documented

  function Product(a: nat, b: nat): nat { a * b }

  function ElementAt(v: VectorView, i: nat): nat { v.base + 4 * Product(i, v.stride) }

  function EntryAt(g: MatrixView, o: nat, i: nat): nat {
    g.base + 4 * (Product(o, g.rowStride) + Product(i, g.columnStride))
  }

  /** The sum for output `o` and column `i`, if its costs can be read and added. */
  function Term(c: Command, m: Memory, o: nat, i: nat): Option<int>
    requires !c.Batch?
  {
    match c
    case Reduce2(_, first, second, _) => Joined(CostAt(m, first.base + 4 * i), CostAt(m, second.base + 4 * i))
    case Reduce3(_, first, second, third, _) =>
      Joined(Joined(CostAt(m, first.base + 4 * i), CostAt(m, second.base + 4 * i)), CostAt(m, third.base + 4 * i))
    case AddVector(first, second, _) => Joined(CostAt(m, ElementAt(first, o)), CostAt(m, ElementAt(second, o)))
    case Project(matrix, vector, _) => Joined(CostAt(m, EntryAt(matrix, o, i)), CostAt(m, ElementAt(vector, i)))
    case Map3Project(first, second, matrix, _) =>
      Joined(Joined(CostAt(m, ElementAt(first, i)), CostAt(m, ElementAt(second, i))), CostAt(m, EntryAt(matrix, o, i)))
  }

  /** Sums per output. */
  function Columns(c: Command): nat
    requires !c.Batch?
  {
    match c
    case Reduce2(_, first, _, _) => first.length
    case Reduce3(_, first, _, _, _) => first.length
    case AddVector(_, _, _) => 1
    case Project(matrix, _, _) => matrix.columns
    case Map3Project(_, _, matrix, _) => matrix.columns
  }

  function Outputs(c: Command): nat
    requires !c.Batch?
  {
    match c
    case Reduce2(_, _, _, _) => 1
    case Reduce3(_, _, _, _, _) => 1
    case AddVector(first, _, _) => first.length
    case Project(matrix, _, _) => matrix.rows
    case Map3Project(_, _, matrix, _) => matrix.rows
  }

  /** Outputs are single costs, or costs followed by an index. */
  predicate Indexed(c: Command)
    requires !c.Batch?
  {
    match c
    case Reduce2(argmin, _, _, _) => argmin
    case Reduce3(argmin, _, _, _, _) => argmin
    case AddVector(_, _, _) => false
    case Project(_, _, _) => false
    case Map3Project(_, _, _, _) => true
  }

  function OutputBytes(c: Command): nat
    requires !c.Batch?
  {
    if Indexed(c) then 8 else 4
  }

  function OutputAt(c: Command, o: nat): nat
    requires !c.Batch?
  {
    match c
    case Reduce2(_, _, _, result) => result
    case Reduce3(_, _, _, _, result) => result
    case AddVector(_, _, output) => output.base + 4 * Product(o, output.stride)
    case Project(_, _, output) => output.base + 4 * Product(o, output.stride)
    case Map3Project(_, _, _, output) => output.base + 8 * Product(o, output.stride)
  }

  /** `v` is the least sum of output `o`, and `k` the first column that has it. */
  ghost predicate Least(c: Command, m: Memory, o: nat, v: int, k: nat)
    requires !c.Batch?
  {
    && k < Columns(c) && Term(c, m, o, k) == Some(v)
    && forall i {:trigger Term(c, m, o, i)} :: 0 <= i < Columns(c) ==>
         && Term(c, m, o, i).Some? && v <= Term(c, m, o, i).value
         && (i < k ==> v < Term(c, m, o, i).value)
  }

  /** Output `o` holds this cost, followed by this number where an index is asked for. */
  ghost predicate AnswersWith(c: Command, r: Memory, o: nat, v: int, k: nat)
    requires !c.Batch?
  {
    && CostAt(r, OutputAt(c, o)) == Some(v)
    && (Indexed(c) ==> FromBytes(Bytes(r, OutputAt(c, o) + 4, 4)) == k)
  }

  /** Output `o` is the least sum, followed by its first column where an index is asked for. */
  ghost predicate Answers(c: Command, m: Memory, r: Memory, o: nat)
    requires !c.Batch?
  {
    exists v, k :: Least(c, m, o, v, k) && AnswersWith(c, r, o, v, k)
  }

  /** Output `o` can be computed and written. */
  ghost predicate PossibleAt(c: Command, m: Memory, o: nat)
    requires !c.Batch?
  {
    && (forall i: nat {:trigger Term(c, m, o, i)} :: i < Columns(c) ==> Term(c, m, o, i).Some?)
    && Writable(m, OutputAt(c, o), OutputBytes(c))
  }

  /** Every cost can be read and added, and every output written. */
  ghost predicate Possible(c: Command, m: Memory)
    requires !c.Batch?
  {
    forall o: nat {:trigger PossibleAt(c, m, o)} :: o < Outputs(c) ==> PossibleAt(c, m, o)
  }

  ghost predicate InOutput(c: Command, x: int)
    requires !c.Batch?
  {
    exists o: nat :: o < Outputs(c) && OutputAt(c, o) <= x < OutputAt(c, o) + OutputBytes(c)
  }

  /** A command that can complete leaves all its answers, and everything else as it was. */
  ghost predicate Computes(c: Command, m: Memory, r: Memory)
    requires !c.Batch?
  {
    && Possible(c, m) && r.cells.Keys == m.cells.Keys && r.rom == m.rom
    && (forall o: nat {:trigger Answers(c, m, r, o)} :: o < Outputs(c) ==> Answers(c, m, r, o))
    && forall x {:trigger ByteAt(r, x)} :: !InOutput(c, x) ==> ByteAt(r, x) == ByteAt(m, x)
  }

  // ------------------------------------------------------------ stored numbers

  /** A stored cost is the 32-bit two's complement number of its four bytes, lowest first. */
  lemma CostExactly(m: Memory, a: nat, v: int)
    ensures CostAt(m, a) == Some(v) <==>
            && Readable(m, a, 4) && INT32_MIN <= v <= INT32_MAX
            && (v - (ByteAt(m, a) + 0x100 * ByteAt(m, a + 1) + 0x1_0000 * ByteAt(m, a + 2)
                     + 0x100_0000 * ByteAt(m, a + 3))) % 0x1_0000_0000 == 0
  {
    var b := Bytes(m, a, 4);
    Number32Is(b, 0);
    assert b[0..4] == b;
    FromBytesBound(b);
    Powers();
    SignedExactly(FromBytes(b), v);
  }

  lemma SignedExactly(bits: nat, v: int)
    requires bits <= UINT32_MAX
    ensures Signed(bits) == v <==> INT32_MIN <= v <= INT32_MAX && (v - bits) % 0x1_0000_0000 == 0
  {
  }

  lemma WordRead(m: Memory, a: nat, v: int)
    requires Readable(m, a, 4) && INT32_MIN <= v <= INT32_MAX && Bytes(m, a, 4) == ToBytes(Word(v), 4)
    ensures CostAt(m, a) == Some(v)
  {
    Powers();
    FromToBytes(Word(v), 4);
  }

  // --------------------------------------------------------------- any shape

  lemma {:induction false} AcceptedToExactly(p: Shape, m: Memory, o: nat, n: nat)
    ensures AcceptedTo(p, m, o, n) <==> forall i {:trigger Element(p, m, o, i)} :: 0 <= i < n ==>
            Element(p, m, o, i).Some?
  {
    if n > 0 {
      AcceptedToExactly(p, m, o, n - 1);
    }
  }

  lemma {:induction false} AcceptedRowsExactly(p: Shape, m: Memory, k: nat)
    ensures AcceptedRows(p, m, k) <==> forall o {:trigger OutputAccepted(p, m, o)} :: 0 <= o < k ==>
            OutputAccepted(p, m, o)
  {
    if k > 0 {
      AcceptedRowsExactly(p, m, k - 1);
    }
  }

  lemma {:induction false} RowAt(p: Shape, m: Memory, o: nat, n: nat, i: nat)
    requires i < n
    ensures Row(p, m, o, n)[i] == ValueOf(Element(p, m, o, i))
  {
    if i < n - 1 {
      RowAt(p, m, o, n - 1, i);
    }
  }

  /** The result of a row is its least element at its first position. */
  lemma ResultLeast(p: Shape, m: Memory, o: nat)
    requires p.columns > 0 && RowAccepted(p, m, o)
    ensures var r := Result(p, m, o);
            && r.index < p.columns && Element(p, m, o, r.index) == Some(r.value)
            && forall i {:trigger Element(p, m, o, i)} :: 0 <= i < p.columns ==>
                 && Element(p, m, o, i).Some? && r.value <= Element(p, m, o, i).value
                 && (i < r.index ==> r.value < Element(p, m, o, i).value)
  {
    AcceptedToExactly(p, m, o, p.columns);
    var row, r := Row(p, m, o, p.columns), Result(p, m, o);
    assert IsFirstMin(row, r);
    RowAt(p, m, o, p.columns, r.index);
    forall i {:trigger Element(p, m, o, i)} | 0 <= i < p.columns
      ensures Element(p, m, o, i).Some? && r.value <= Element(p, m, o, i).value
      ensures i < r.index ==> r.value < Element(p, m, o, i).value
    {
      RowAt(p, m, o, p.columns, i);
      assert r.value <= row[i];
    }
  }

  lemma ElementRange(p: Shape, m: Memory, o: nat, i: nat)
    requires Element(p, m, o, i).Some?
    ensures INT32_MIN <= Element(p, m, o, i).value <= INF
  {
  }

  lemma SlotsApart(p: Shape, q: nat, o: nat)
    requires q < o && p.stride > 0
    ensures Slot(p, q) + OutWidth(p) <= Slot(p, o)
  {
    OffsetMonotone(q, o, p.stride);
  }

  lemma StoreApart(m: Memory, address: nat, bytes: seq<Byte>, a: nat, n: nat)
    requires a + n <= address
    ensures Bytes(Stored(m, address, bytes), a, n) == Bytes(m, a, n)
  {
    forall i | 0 <= i < n ensures Bytes(Stored(m, address, bytes), a, n)[i] == Bytes(m, a, n)[i] {
      assert a + i in m.cells ==> ByteAt(Stored(m, address, bytes), a + i) == ByteAt(m, a + i);
    }
  }

  lemma StoreThere(m: Memory, address: nat, bytes: seq<Byte>)
    requires Writable(m, address, |bytes|)
    ensures Bytes(Stored(m, address, bytes), address, |bytes|) == bytes
  {
    forall i | 0 <= i < |bytes| ensures Bytes(Stored(m, address, bytes), address, |bytes|)[i] == bytes[i] {
      assert address + i in m.cells;
    }
  }

  lemma StoredLast(m: Memory, before: Memory, at: nat, bytes: seq<Byte>)
    requires before.cells.Keys == m.cells.Keys && before.rom == m.rom && Writable(m, at, |bytes|)
    ensures Bytes(Stored(before, at, bytes), at, |bytes|) == bytes
  {
    assert Writable(before, at, |bytes|);
    StoreThere(before, at, bytes);
  }

  lemma StoreMore(p: Shape, m: Memory, records: seq<seq<Byte>>, k: nat)
    requires k < |records|
    ensures StoreAll(p, m, records, k + 1) == Stored(StoreAll(p, m, records, k), Slot(p, k), records[k])
  {
  }

  type Memories = nat -> Memory

  ghost predicate Reached(k: nat) { true }

  /** Memories that store one record after another, each above the one before. */
  ghost predicate Storing(stage: Memories, m: Memory, p: Shape, records: seq<seq<Byte>>) {
    forall k: nat {:trigger Reached(k)} :: Reached(k) && k < |records| ==>
      && stage(k).cells.Keys == m.cells.Keys && stage(k).rom == m.rom
      && stage(k + 1) == Stored(stage(k), Slot(p, k), records[k])
  }

  ghost function StagesOf(p: Shape, m: Memory, records: seq<seq<Byte>>): Memories {
    (k: nat) => if k <= |records| then StoreAll(p, m, records, k) else m
  }

  lemma StagesStore(p: Shape, m: Memory, records: seq<seq<Byte>>)
    ensures Storing(StagesOf(p, m, records), m, p, records)
  {
    forall k: nat {:trigger Reached(k)} | Reached(k) && k < |records|
      ensures StoreAll(p, m, records, k + 1) == Stored(StoreAll(p, m, records, k), Slot(p, k), records[k])
    {
      StoreMore(p, m, records, k);
    }
  }

  /** Later outputs leave earlier ones alone. */
  lemma {:induction false} StoredAt(stage: Memories, p: Shape, m: Memory, records: seq<seq<Byte>>, k: nat, o: nat,
                                    at: nat, bytes: seq<Byte>)
    requires Storing(stage, m, p, records) && o < k <= |records| && (|records| > 1 ==> p.stride > 0)
    requires at == Slot(p, o) && bytes == records[o] && |bytes| == OutWidth(p) && Writable(m, at, |bytes|)
    ensures Bytes(stage(k), at, |bytes|) == bytes
  {
    assert Reached(k - 1);
    if o == k - 1 {
      StoredLast(m, stage(o), at, bytes);
    } else {
      StoredAt(stage, p, m, records, k - 1, o, at, bytes);
      SlotsApart(p, o, k - 1);
      StoreApart(stage(k - 1), Slot(p, k - 1), records[k - 1], at, |bytes|);
    }
  }

  lemma BytesPart(m: Memory, a: nat, n: nat, from: nat, k: nat)
    requires from + k <= n
    ensures Bytes(m, a, n)[from..from + k] == Bytes(m, a + from, k)
  {
  }

  /** A record reads back as the least sum and its position. */
  lemma RecordReads(m: Memory, a: nat, r: MinArg, pair: bool)
    requires INT32_MIN <= r.value <= INT32_MAX && r.index <= UINT32_MAX
    requires Readable(m, a, if pair then 8 else 4) && Bytes(m, a, if pair then 8 else 4) == Record(r, pair)
    ensures CostAt(m, a) == Some(r.value) && (pair ==> FromBytes(Bytes(m, a + 4, 4)) == r.index)
  {
    assert Readable(m, a, 4);
    if pair {
      BytesPart(m, a, 8, 0, 4);
      BytesPart(m, a, 8, 4, 4);
      assert Record(r, pair)[0..4] == ToBytes(Word(r.value), 4) && Record(r, pair)[4..8] == ToBytes(r.index, 4);
      Powers();
      FromToBytes(r.index, 4);
    }
    WordRead(m, a, r.value);
  }

  lemma ShapeAccepts(p: Shape, m: Memory, o: nat)
    requires Accepted(p, m) && o < p.rows
    ensures RowAccepted(p, m, o) && Writable(m, Slot(p, o), OutWidth(p))
  {
    AcceptedRowsPrefix(p, m, o + 1, p.rows);
  }

  /** Output `o` of a completed command, at `at`. */
  lemma ShapeStores(p: Shape, m: Memory, r: Memory, o: nat, at: nat, bytes: seq<Byte>)
    requires Spec(p, m) == Some(r) && o < p.rows && (p.rows > 1 ==> p.stride > 0)
    requires at == Slot(p, o) && bytes == Record(Result(p, m, o), p.pair)
    ensures Readable(r, at, |bytes|) && Bytes(r, at, |bytes|) == bytes
  {
    var records := Records(p, m);
    ShapeAccepts(p, m, o);
    StagesStore(p, m, records);
    assert records[o] == bytes;
    StoredAt(StagesOf(p, m, records), p, m, records, p.rows, o, at, bytes);
  }

  // ---------------------------------------------------------- commands as shapes

  lemma ShapeOf(c: Command)
    requires Validate(c) == Fine && !c.Batch?
    ensures var p := Lower(c);
            && p.rows == Outputs(c) && p.columns == Columns(c) && p.pair == Indexed(c) && OutWidth(p) == OutputBytes(c)
            && 0 < p.columns <= UINT16_MAX && p.stride > 0
  {
  }

  lemma TermIs(c: Command, m: Memory, o: nat, i: nat)
    requires Validate(c) == Fine && !c.Batch? && i < Columns(c)
    ensures Element(Lower(c), m, o, i) == Term(c, m, o, i)
  {
    match c
    case Reduce2(_, _, _, _) => ReduceTerm(c, m, o, i);
    case Reduce3(_, _, _, _, _) => ReduceTerm(c, m, o, i);
    case AddVector(_, _, _) => AddTerm(c, m, o);
    case Project(_, _, _) => ProjectTerm(c, m, o, i);
    case Map3Project(_, _, _, _) => Map3Term(c, m, o, i);
  }

  lemma ReduceTerm(c: Command, m: Memory, o: nat, i: nat)
    requires Validate(c) == Fine && (c.Reduce2? || c.Reduce3?)
    ensures Element(Lower(c), m, o, i) == Term(c, m, o, i)
  {
    UnitPlace(c.first, o, i);
    UnitPlace(c.second, o, i);
    if c.Reduce3? {
      UnitPlace(c.third, o, i);
    }
  }

  lemma AddTerm(c: Command, m: Memory, o: nat)
    requires Validate(c) == Fine && c.AddVector?
    ensures Element(Lower(c), m, o, 0) == Term(c, m, o, 0)
  {
    DownPlace(c.first, o);
    DownPlace(c.second, o);
  }

  lemma ProjectTerm(c: Command, m: Memory, o: nat, i: nat)
    requires Validate(c) == Fine && c.Project?
    ensures Element(Lower(c), m, o, i) == Term(c, m, o, i)
  {
    FlatPlace(c.vector, o, i);
    GridPlace(c.matrix, o, i);
  }

  lemma Map3Term(c: Command, m: Memory, o: nat, i: nat)
    requires Validate(c) == Fine && c.Map3Project?
    ensures Element(Lower(c), m, o, i) == Term(c, m, o, i)
  {
    FlatPlace(c.first, o, i);
    FlatPlace(c.second, o, i);
    GridPlace(c.matrix, o, i);
  }

  lemma UnitPlace(v: VectorView, o: nat, i: nat)
    requires v.stride == 1
    ensures Place(Along(v), o, i) == v.base + 4 * i
  {
    OffsetUnit(o);
    OffsetUnit(i);
  }

  lemma DownPlace(v: VectorView, o: nat)
    ensures Place(Down(v), o, 0) == ElementAt(v, o)
  {
    OffsetIsProduct(o, v.stride);
  }

  lemma FlatPlace(v: VectorView, o: nat, i: nat)
    ensures Place(Along(v), o, i) == ElementAt(v, i)
  {
    OffsetUnit(o);
    OffsetIsProduct(i, v.stride);
  }

  lemma GridPlace(g: MatrixView, o: nat, i: nat)
    ensures Place(Grid(g), o, i) == EntryAt(g, o, i)
  {
    OffsetIsProduct(o, g.rowStride);
    OffsetIsProduct(i, g.columnStride);
  }

  lemma SlotIs(c: Command, o: nat)
    requires Validate(c) == Fine && !c.Batch? && o < Outputs(c)
    ensures Slot(Lower(c), o) == OutputAt(c, o)
  {
    OffsetIsProduct(o, Lower(c).stride);
  }

  lemma RowIs(c: Command, m: Memory, o: nat)
    requires Validate(c) == Fine && !c.Batch?
    ensures RowAccepted(Lower(c), m, o) <==>
            forall i: nat {:trigger Term(c, m, o, i)} :: i < Columns(c) ==> Term(c, m, o, i).Some?
  {
    var p := Lower(c);
    ShapeOf(c);
    AcceptedToExactly(p, m, o, p.columns);
    forall i: nat | i < p.columns ensures Element(p, m, o, i) == Term(c, m, o, i) {
      TermIs(c, m, o, i);
    }
  }

  lemma PossibleAtIs(c: Command, m: Memory, o: nat)
    requires Validate(c) == Fine && !c.Batch? && o < Outputs(c)
    ensures OutputAccepted(Lower(c), m, o) <==> PossibleAt(c, m, o)
  {
    ShapeOf(c);
    SlotIs(c, o);
    RowIs(c, m, o);
  }

  lemma PossibleIs(c: Command, m: Memory)
    requires Validate(c) == Fine && !c.Batch?
    ensures Accepted(Lower(c), m) <==> Possible(c, m)
  {
    var p := Lower(c);
    ShapeOf(c);
    AcceptedRowsExactly(p, m, p.rows);
    forall o: nat | o < p.rows ensures OutputAccepted(p, m, o) <==> PossibleAt(c, m, o) {
      PossibleAtIs(c, m, o);
    }
  }

  lemma LeastIs(c: Command, m: Memory, o: nat) returns (v: int, k: nat)
    requires Validate(c) == Fine && !c.Batch? && RowAccepted(Lower(c), m, o)
    ensures Result(Lower(c), m, o) == MinArg(v, k) && Least(c, m, o, v, k)
    ensures INT32_MIN <= v <= INT32_MAX && k <= UINT32_MAX
  {
    var p := Lower(c);
    ShapeOf(c);
    ResultLeast(p, m, o);
    v, k := Result(p, m, o).value, Result(p, m, o).index;
    TermIs(c, m, o, k);
    ElementRange(p, m, o, k);
    forall i {:trigger Term(c, m, o, i)} | 0 <= i < Columns(c)
      ensures Term(c, m, o, i).Some? && v <= Term(c, m, o, i).value && (i < k ==> v < Term(c, m, o, i).value)
    {
      TermIs(c, m, o, i);
    }
  }

  lemma OutputIs(c: Command, m: Memory, r: Memory, o: nat) returns (v: int, k: nat)
    requires Validate(c) == Fine && !c.Batch? && Spec(Lower(c), m) == Some(r) && o < Outputs(c)
    ensures Least(c, m, o, v, k) && INT32_MIN <= v <= INT32_MAX && k <= UINT32_MAX
    ensures Readable(r, OutputAt(c, o), OutputBytes(c))
    ensures Bytes(r, OutputAt(c, o), OutputBytes(c)) == Record(MinArg(v, k), Indexed(c))
  {
    ShapeOf(c);
    SlotIs(c, o);
    ShapeAccepts(Lower(c), m, o);
    v, k := LeastIs(c, m, o);
    ShapeStores(Lower(c), m, r, o, OutputAt(c, o), Record(MinArg(v, k), Indexed(c)));
  }

  lemma AnswerFrom(c: Command, m: Memory, r: Memory, o: nat, v: int, k: nat)
    requires !c.Batch? && Least(c, m, o, v, k) && INT32_MIN <= v <= INT32_MAX && k <= UINT32_MAX
    requires Readable(r, OutputAt(c, o), OutputBytes(c))
    requires Bytes(r, OutputAt(c, o), OutputBytes(c)) == Record(MinArg(v, k), Indexed(c))
    ensures Answers(c, m, r, o)
  {
    RecordReads(r, OutputAt(c, o), MinArg(v, k), Indexed(c));
  }

  lemma AnswerIs(c: Command, m: Memory, r: Memory, o: nat)
    requires Validate(c) == Fine && !c.Batch? && Spec(Lower(c), m) == Some(r) && o < Outputs(c)
    ensures Answers(c, m, r, o)
  {
    var v, k := OutputIs(c, m, r, o);
    AnswerFrom(c, m, r, o, v, k);
  }

  lemma TouchedOutput(c: Command, x: int)
    requires Validate(c) == Fine && !c.Batch? && Touched(Lower(c), x)
    ensures InOutput(c, x)
  {
    var p := Lower(c);
    ShapeOf(c);
    var o :| 0 <= o < p.rows && InSlot(p, o, x);
    SlotIs(c, o);
    assert o < Outputs(c) && OutputAt(c, o) <= x < OutputAt(c, o) + OutputBytes(c);
  }

  lemma OutsideIs(c: Command, m: Memory, r: Memory, x: int)
    requires Validate(c) == Fine && !c.Batch? && OnlyOutputs(Lower(c), m, r) && !InOutput(c, x)
    ensures ByteAt(r, x) == ByteAt(m, x)
  {
    if Touched(Lower(c), x) {
      TouchedOutput(c, x);
    }
  }

  /** What a valid primitive computes by its specification is what its documentation says. */
  lemma SpecComputes(c: Command, m: Memory, r: Memory)
    requires Validate(c) == Fine && !c.Batch? && Spec(Lower(c), m) == Some(r)
    ensures Computes(c, m, r)
  {
    var p := Lower(c);
    PossibleIs(c, m);
    forall o: nat {:trigger Answers(c, m, r, o)} | o < Outputs(c) ensures Answers(c, m, r, o) {
      AnswerIs(c, m, r, o);
    }
    StoreAllOnlyOutputs(p, m, Records(p, m), p.rows);
    forall x {:trigger ByteAt(r, x)} | !InOutput(c, x) ensures ByteAt(r, x) == ByteAt(m, x) {
      OutsideIs(c, m, r, x);
    }
  }

  // ----------------------------------------------------------------- uniqueness

  lemma LeastUnique(c: Command, m: Memory, o: nat, v: int, k: nat, v': int, k': nat)
    requires !c.Batch? && Least(c, m, o, v, k) && Least(c, m, o, v', k')
    ensures v == v' && k == k'
  {
    assert Term(c, m, o, k) == Some(v) && Term(c, m, o, k') == Some(v');
  }

  lemma {:induction false} FromBytesInjective(a: seq<Byte>, b: seq<Byte>)
    requires |a| == |b| && FromBytes(a) == FromBytes(b)
    ensures a == b
  {
    ToFromBytes(a);
    ToFromBytes(b);
  }

  lemma SameCostBytes(r: Memory, s: Memory, a: nat, x: int)
    requires CostAt(r, a).Some? && CostAt(r, a) == CostAt(s, a) && a <= x < a + 4
    ensures ByteAt(r, x) == ByteAt(s, x)
  {
    var b, d := Bytes(r, a, 4), Bytes(s, a, 4);
    FromBytesBound(b);
    FromBytesBound(d);
    Powers();
    FromBytesInjective(b, d);
    assert b[x - a] == d[x - a];
  }

  lemma SameIndexBytes(r: Memory, s: Memory, a: nat, x: int)
    requires FromBytes(Bytes(r, a, 4)) == FromBytes(Bytes(s, a, 4)) && a <= x < a + 4
    ensures ByteAt(r, x) == ByteAt(s, x)
  {
    FromBytesInjective(Bytes(r, a, 4), Bytes(s, a, 4));
    assert Bytes(r, a, 4)[x - a] == Bytes(s, a, 4)[x - a];
  }

  lemma SameWith(c: Command, r: Memory, s: Memory, o: nat, v: int, k: nat, x: int)
    requires !c.Batch? && OutputAt(c, o) <= x < OutputAt(c, o) + OutputBytes(c)
    requires AnswersWith(c, r, o, v, k) && AnswersWith(c, s, o, v, k)
    ensures ByteAt(r, x) == ByteAt(s, x)
  {
    if x < OutputAt(c, o) + 4 {
      SameCostBytes(r, s, OutputAt(c, o), x);
    } else {
      SameIndexBytes(r, s, OutputAt(c, o) + 4, x);
    }
  }

  lemma SameAnswer(c: Command, m: Memory, r: Memory, s: Memory, o: nat, x: int)
    requires !c.Batch? && Answers(c, m, r, o) && Answers(c, m, s, o)
    requires OutputAt(c, o) <= x < OutputAt(c, o) + OutputBytes(c)
    ensures ByteAt(r, x) == ByteAt(s, x)
  {
    var v, k :| Least(c, m, o, v, k) && AnswersWith(c, r, o, v, k);
    var v', k' :| Least(c, m, o, v', k') && AnswersWith(c, s, o, v', k');
    LeastUnique(c, m, o, v, k, v', k');
    SameWith(c, r, s, o, v, k, x);
  }

  /** The documentation leaves no freedom in what a completed command leaves. */
  lemma ComputesUnique(c: Command, m: Memory, r: Memory, s: Memory)
    requires !c.Batch? && Computes(c, m, r) && Computes(c, m, s)
    ensures r == s
  {
    forall x | x in r.cells ensures r.cells[x] == s.cells[x] {
      if InOutput(c, x) {
        var o: nat :| o < Outputs(c) && OutputAt(c, o) <= x < OutputAt(c, o) + OutputBytes(c);
        SameAnswer(c, m, r, s, o, x);
      } else {
        assert ByteAt(r, x) == ByteAt(m, x) && ByteAt(s, x) == ByteAt(m, x);
      }
      assert r.cells[x] == ByteAt(r, x) && s.cells[x] == ByteAt(s, x);
    }
    assert r.cells == s.cells;
  }

  /** A valid primitive completes with a memory exactly when this memory is what its documentation
      prescribes, and fails exactly when some cost cannot be read or added or some output written. */
  lemma CommandMeans(c: Command, m: Memory, r: Memory)
    requires Validate(c) == Fine && !c.Batch?
    ensures Spec(Lower(c), m) == Some(r) <==> Computes(c, m, r)
    ensures Spec(Lower(c), m).None? <==> !Possible(c, m)
  {
    PossibleIs(c, m);
    if Possible(c, m) {
      var s := Spec(Lower(c), m).value;
      SpecComputes(c, m, s);
      if Computes(c, m, r) {
        ComputesUnique(c, m, r, s);
      }
    }
  }
}
