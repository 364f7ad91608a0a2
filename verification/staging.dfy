/** Staging of host operands in guest memory (tools/pbqp_model_kernel.cpp: GuestMemory::allocate,
    begin_batch, copy_view, copy_matrix, allocate_storage). Host memory is one array of costs, and
    pointers are positions in it. */
module GuestStaging {
  import opened Basics
  import opened Costs
  import opened GuestMemory
  import opened Commands
  import opened Semantics

  // ------------------------------------------------------------- host operands

  datatype HostView = HostView(base: nat, length: nat, stride: nat)

  datatype HostMatrix = HostMatrix(base: nat, rows: nat, columns: nat, rowStride: nat, columnStride: nat)

  function HostAt(h: seq<int>, x: nat): int { if x < |h| then h[x] else 0 }

  function ViewAt(v: HostView, i: nat): nat { v.base + Offset(i, v.stride) }

  function MatrixAt(v: HostMatrix, r: nat, i: nat): nat { v.base + Offset(r, v.rowStride) + Offset(i, v.columnStride) }

  function ViewValues(h: seq<int>, v: HostView): (values: seq<int>)
    ensures |values| == v.length
    ensures forall i {:trigger values[i]} :: 0 <= i < v.length ==> values[i] == HostAt(h, ViewAt(v, i))
  {
    seq(v.length, i requires 0 <= i => HostAt(h, ViewAt(v, i)))
  }

  function RowValues(h: seq<int>, v: HostMatrix, r: nat): (values: seq<int>)
    ensures |values| == v.columns
    ensures forall i {:trigger values[i]} :: 0 <= i < v.columns ==> values[i] == HostAt(h, MatrixAt(v, r, i))
  {
    seq(v.columns, i requires 0 <= i => HostAt(h, MatrixAt(v, r, i)))
  }

  function MatrixValues(h: seq<int>, v: HostMatrix): (rows: seq<seq<int>>)
    ensures |rows| == v.rows
    ensures forall r {:trigger rows[r]} :: 0 <= r < v.rows ==> rows[r] == RowValues(h, v, r)
  {
    seq(v.rows, r requires 0 <= r => RowValues(h, v, r))
  }

  predicate IsInt32(value: int) { INT32_MIN <= value <= INT32_MAX }

  ghost predicate Int32s(h: seq<int>) { forall x {:trigger h[x]} :: 0 <= x < |h| ==> IsInt32(h[x]) }

  // ------------------------------------------------------------- guest contents

  /** The costs from `address` on are these values. */
  ghost predicate Holds(m: Memory, address: nat, values: seq<int>) {
    forall i {:trigger values[i]} :: 0 <= i < |values| ==> CostAt(m, address + 4 * i) == Some(values[i])
  }

  /** Rows one after another. */
  ghost predicate HoldsRows(m: Memory, address: nat, rows: seq<seq<int>>, columns: nat) {
    forall r {:trigger rows[r]} :: 0 <= r < |rows| ==> Holds(m, address + 4 * Offset(r, columns), rows[r])
  }

  /** All bytes below `end` are still there and unchanged. */
  ghost predicate SameBelow(m: Memory, r: Memory, end: nat) {
    && (forall x {:trigger x in r.cells} :: x in m.cells ==> x in r.cells)
    && forall x {:trigger ByteAt(r, x)} :: 0 <= x < end && x in m.cells ==> ByteAt(r, x) == ByteAt(m, x)
  }

  lemma SameBelowTransitive(a: Memory, b: Memory, c: Memory, end: nat, more: nat)
    requires SameBelow(a, b, end) && SameBelow(b, c, more) && end <= more
    ensures SameBelow(a, c, end)
  {
    forall x | 0 <= x < end && x in a.cells ensures ByteAt(c, x) == ByteAt(a, x) {
      assert ByteAt(b, x) == ByteAt(a, x);
    }
  }

  lemma CostBelow(m: Memory, r: Memory, end: nat, address: nat)
    requires SameBelow(m, r, end) && address + 4 <= end && CostAt(m, address).Some?
    ensures CostAt(r, address) == CostAt(m, address)
  {
    assert Readable(r, address, 4);
    assert Bytes(r, address, 4) == Bytes(m, address, 4);
  }

  lemma HoldsBelow(m: Memory, r: Memory, end: nat, address: nat, values: seq<int>)
    requires SameBelow(m, r, end) && address + 4 * |values| <= end && Holds(m, address, values)
    ensures Holds(r, address, values)
  {
    forall i | 0 <= i < |values| ensures CostAt(r, address + 4 * i) == Some(values[i]) {
      assert CostAt(m, address + 4 * i) == Some(values[i]);
      CostBelow(m, r, end, address + 4 * i);
    }
  }

  lemma HoldsRowsBelow(m: Memory, r: Memory, end: nat, address: nat, rows: seq<seq<int>>, columns: nat)
    requires SameBelow(m, r, end) && address + 4 * Offset(|rows|, columns) <= end
    requires HoldsRows(m, address, rows, columns)
    requires forall k {:trigger rows[k]} :: 0 <= k < |rows| ==> |rows[k]| == columns
    ensures HoldsRows(r, address, rows, columns)
  {
    forall k | 0 <= k < |rows| ensures Holds(r, address + 4 * Offset(k, columns), rows[k]) {
      OffsetMonotone(k, |rows|, columns);
      HoldsBelow(m, r, end, address + 4 * Offset(k, columns), rows[k]);
    }
  }

  lemma StoredBelow(m: Memory, address: nat, bytes: seq<Byte>)
    ensures SameBelow(m, Stored(m, address, bytes), address)
  {
  }

  ghost predicate HasBytes(m: Memory, address: nat, bytes: seq<Byte>) {
    Readable(m, address, |bytes|) && Bytes(m, address, |bytes|) == bytes
  }

  lemma BytesBelow(m: Memory, r: Memory, end: nat, address: nat, bytes: seq<Byte>)
    requires SameBelow(m, r, end) && address + |bytes| <= end && HasBytes(m, address, bytes)
    ensures HasBytes(r, address, bytes)
  {
    assert Readable(r, address, |bytes|);
    forall k | 0 <= k < |bytes| ensures Bytes(r, address, |bytes|)[k] == bytes[k] {
      assert bytes[k] == ByteAt(m, address + k);
    }
  }

  lemma StoredBytes(m: Memory, address: nat, bytes: seq<Byte>)
    requires Readable(m, address, |bytes|)
    ensures HasBytes(Stored(m, address, bytes), address, bytes)
  {
    var r := Stored(m, address, bytes);
    assert Readable(r, address, |bytes|);
    forall k | 0 <= k < |bytes| ensures Bytes(r, address, |bytes|)[k] == bytes[k] {
      assert address + k in m.cells;
    }
  }

  /** A stored word reads back. */
  lemma StoredCost(m: Memory, address: nat, value: int)
    requires IsInt32(value) && Readable(m, address, 4)
    ensures CostAt(Stored(m, address, ToBytes(Word(value), 4)), address) == Some(value)
  {
    var bytes := ToBytes(Word(value), 4);
    var r := Stored(m, address, bytes);
    Powers();
    FromToBytes(Word(value), 4);
    assert Readable(r, address, 4);
    assert Bytes(r, address, 4) == bytes;
  }

  /** Copying one more element. */
  lemma HoldsNext(m: Memory, address: nat, values: seq<int>, i: nat)
    requires i < |values| && Holds(m, address, values[..i]) && IsInt32(values[i])
    requires Readable(m, address + 4 * i, 4)
    ensures Holds(Stored(m, address + 4 * i, ToBytes(Word(values[i]), 4)), address, values[..i + 1])
  {
    var r := Stored(m, address + 4 * i, ToBytes(Word(values[i]), 4));
    StoredCost(m, address + 4 * i, values[i]);
    StoredBelow(m, address + 4 * i, ToBytes(Word(values[i]), 4));
    HoldsBelow(m, r, address + 4 * i, address, values[..i]);
    forall k | 0 <= k < i + 1 ensures CostAt(r, address + 4 * k) == Some(values[..i + 1][k]) {
      if k < i {
        assert values[..i + 1][k] == values[..i][k];
      }
    }
  }

  predicate InsideView(n: nat, v: HostView) { v.length == 0 || ViewAt(v, v.length - 1) < n }

  predicate InsideMatrix(n: nat, v: HostMatrix) {
    v.rows == 0 || v.columns == 0 || MatrixAt(v, v.rows - 1, v.columns - 1) < n
  }

  lemma InsideAt(n: nat, v: HostView, i: nat)
    requires InsideView(n, v) && i < v.length
    ensures ViewAt(v, i) < n
  {
    OffsetMonotone(i, v.length - 1, v.stride);
  }

  lemma InsideMatrixAt(n: nat, v: HostMatrix, r: nat, i: nat)
    requires InsideMatrix(n, v) && r < v.rows && i < v.columns
    ensures MatrixAt(v, r, i) < n
  {
    OffsetMonotone(r, v.rows - 1, v.rowStride);
    OffsetMonotone(i, v.columns - 1, v.columnStride);
  }

  // ------------------------------------------------------------------- blocks

  /** What a staged block is for. */
  datatype Use = ForView(view: HostView) | ForMatrix(job: nat) | ForProjection(job: nat) | ForBatch(part: nat)

  datatype Block = Block(start: nat, size: nat, use: Use) {
    function End(): nat { start + size }
  }

  ghost predicate Before(blocks: seq<Block>, i: nat, j: nat)
    requires i < |blocks| && j < |blocks|
  {
    blocks[i].End() <= blocks[j].start
  }

  /** Blocks in order of address, between the first address and `next`. */
  ghost predicate Chained(blocks: seq<Block>, next: nat) {
    && (forall i, j {:trigger Before(blocks, i, j)} :: 0 <= i < j < |blocks| ==> Before(blocks, i, j))
    && forall i {:trigger blocks[i]} :: 0 <= i < |blocks| ==> FIRST <= blocks[i].start && blocks[i].End() <= next
  }

  predicate Apart(a: nat, n: nat, b: nat, k: nat) { a + n <= b || b + k <= a }

  /** Staged regions never overlap. */
  lemma RegionsApart(blocks: seq<Block>, next: nat, a: Block, b: Block)
    requires Chained(blocks, next) && a in blocks && b in blocks && a != b
    ensures Apart(a.start, a.size, b.start, b.size)
  {
    var i :| 0 <= i < |blocks| && blocks[i] == a;
    var j :| 0 <= j < |blocks| && blocks[j] == b;
    if i < j {
      assert Before(blocks, i, j);
    } else {
      assert Before(blocks, j, i);
    }
  }

  lemma ChainedAppend(blocks: seq<Block>, next: nat, b: Block)
    requires Chained(blocks, next) && next <= b.start && FIRST <= b.start
    ensures Chained(blocks + [b], b.End())
  {
    var all := blocks + [b];
    forall i, j {:trigger Before(all, i, j)} | 0 <= i < j < |all| ensures Before(all, i, j) {
      if j < |blocks| {
        assert Before(blocks, i, j);
      }
    }
  }

  // --------------------------------------------------------------------- area

  const FIRST: nat := 0x100
  const INITIAL: nat := 0x10_0000
  /** No byte vector is longer. */
  const LARGEST: nat := 0x7fff_ffff_ffff_ffff

  datatype Stage = Staged | OutOfRange | Exhausted | WriteFailed

  /** What decides every later allocation: the bump pointer, the views copied and the status. */
  datatype Ledger = Ledger(next: nat, views: set<HostView>, status: Stage)

  /** A product as a 64-bit size holds it. */
  function Wrapped(bytes: nat): (size: nat)
    ensures size <= UINT64_MAX && (size == bytes <==> bytes <= UINT64_MAX)
  {
    bytes % (UINT64_MAX + 1)
  }

  predicate HasRoom(limit: nat, next: nat, bytes: nat) {
    AlignUp(next) + bytes <= limit && AlignUp(next) + bytes <= LARGEST
  }

  function Reserved(limit: nat, l: Ledger, bytes: nat): Ledger {
    if HasRoom(limit, l.next, bytes) then l.(next := AlignUp(l.next) + bytes)
    else if l.status == Staged then l.(status := Exhausted) else l
  }

  /** An equal view takes no room again; a view too long for a byte count is out of range. */
  function ViewReserved(limit: nat, l: Ledger, v: HostView): Ledger {
    if v in l.views then l
    else if v.length > UINT64_MAX / 4 then l.(status := OutOfRange)
    else if HasRoom(limit, l.next, 4 * v.length)
    then Reserved(limit, l, 4 * v.length).(views := l.views + {v})
    else Reserved(limit, l, 4 * v.length)
  }

  /** The byte count of a matrix wraps at 64 bits; the copy then runs off the end of the memory. */
  function MatrixReserved(limit: nat, l: Ledger, rows: nat, columns: nat): Ledger {
    var bytes := 4 * Offset(rows, columns);
    var reserved := Reserved(limit, l, Wrapped(bytes));
    if bytes > UINT64_MAX && HasRoom(limit, l.next, Wrapped(bytes)) then reserved.(status := WriteFailed) else reserved
  }

  /** The bytes of the area are exactly the addresses below `size`, all writable. */
  ghost predicate Plain(m: Memory, size: nat) {
    m.rom == {} && forall x {:trigger x in m.cells} :: x in m.cells <==> 0 <= x < size
  }

  function Grown(m: Memory, from: nat, to: nat): (r: Memory)
    requires from <= to
    ensures Plain(m, from) ==> Plain(r, to) && SameBelow(m, r, from)
  {
    m.(cells := map x | 0 <= x < to :: if x < from && x in m.cells then m.cells[x] else 0)
  }

  /** Guest memory with its bump pointer, and the views copied since the batch began. */
  class Area {
    const limit: nat
    var memory: Memory
    var size: nat
    var next: nat
    var cache: map<HostView, nat>
    var status: Stage
    ghost var blocks: seq<Block>

    ghost predicate Valid()
      reads this
    {
      && Plain(memory, size) && size <= LARGEST && size <= limit && FIRST <= next && (next == FIRST || next <= size)
      && Chained(blocks, next)
      && forall v {:trigger cache[v]} :: v in cache ==> Block(cache[v], 4 * v.length, ForView(v)) in blocks
    }

    ghost function Account(): Ledger
      reads this
    {
      Ledger(next, cache.Keys, status)
    }

    /** Every cached address holds exactly the strided view it was copied from. */
    ghost predicate Mirrors(h: seq<int>)
      reads this
    {
      forall v {:trigger cache[v]} :: v in cache ==> Holds(memory, cache[v], ViewValues(h, v))
    }

    constructor (limit: nat)
      ensures Valid() && blocks == [] && cache == map[] && this.limit == limit
    {
      this.limit := limit;
      var n := if limit < INITIAL then limit else INITIAL;
      memory := Grown(Memory(map[], {}), 0, n);
      size, next := n, FIRST;
      cache, status, blocks := map[], Staged, [];
    }

    /** Starts a new staging lifetime. */
    method BeginBatch()
      requires Valid()
      modifies this
      ensures Valid() && blocks == [] && cache == map[] && Account() == Ledger(FIRST, {}, Staged)
      ensures next == 0x100
      ensures memory == old(memory)
    {
      next, cache, status, blocks := FIRST, map[], Staged, [];
    }

    /** Takes the next aligned bytes, growing the memory up to its limit; 0 when there is no room. */
    method Allocate(bytes: nat, ghost use: Use) returns (address: nat)
      requires Valid()
      modifies this
      ensures Valid() && cache == old(cache) && Account() == Reserved(limit, old(Account()), bytes)
      ensures address != 0 <==> AlignUp(old(next)) + bytes <= limit && AlignUp(old(next)) + bytes <= LARGEST
      ensures SameBelow(old(memory), memory, old(size))
      ensures Grew(old(blocks), old(cache), old(next), old(memory), blocks, cache, next, memory)
      ensures address == 0 ==> memory == old(memory) && blocks == old(blocks) && next == old(next) && status != Staged
      ensures address != 0 ==> blocks == old(blocks) + [Block(address, bytes, use)] && status == old(status)
      ensures address != 0 ==> old(next) <= address && address % 8 == 0 && address + bytes <= size
      ensures address != 0 ==> next == address + bytes
    {
      var aligned := AlignUp(next);
      if aligned + bytes > limit || (aligned + bytes > size && aligned + bytes > LARGEST) {
        if status == Staged {
          status := Exhausted;
        }
        return 0;
      }
      if aligned + bytes > size {
        memory := Grown(memory, size, aligned + bytes);
        size := aligned + bytes;
      }
      ChainedAppend(blocks, next, Block(aligned, bytes, use));
      next := aligned + bytes;
      blocks := blocks + [Block(aligned, bytes, use)];
      address := aligned;
    }

    /** Stores bytes inside the memory. */
    method Write(address: nat, bytes: seq<Byte>)
      requires Valid() && address + |bytes| <= size
      modifies this`memory
      ensures Valid() && memory == Stored(old(memory), address, bytes)
    {
      ghost var before := memory;
      memory := Stored(memory, address, bytes);
      forall x {:trigger x in memory.cells} ensures x in memory.cells <==> 0 <= x < size {
        assert x in memory.cells <==> x in before.cells;
      }
    }

    /** Copies a view once per batch: an equal view gives the same address again. */
    method CopyView(host: array<int>, v: HostView) returns (address: nat)
      requires Valid() && Mirrors(host[..]) && Int32s(host[..]) && InsideView(host.Length, v)
      modifies this
      ensures Valid() && Mirrors(host[..]) && Account() == ViewReserved(limit, old(Account()), v)
      ensures Grew(old(blocks), old(cache), old(next), old(memory), blocks, cache, next, memory)
      ensures address != 0 ==> status == old(status) && v in cache && cache[v] == address
      ensures address == 0 ==> status != Staged
    {
      if v in cache {
        CachedBlock(blocks, next, cache, v);
        address := cache[v];
      } else if v.length > UINT64_MAX / 4 {
        status := OutOfRange;
        address := 0;
      } else {
        address := StageView(host, v, host[..]);
      }
    }

    method StageView(host: array<int>, v: HostView, ghost h: seq<int>) returns (address: nat)
      requires Valid() && Mirrors(h) && h == host[..] && Int32s(h) && InsideView(host.Length, v) && v !in cache
      requires v.length <= UINT64_MAX / 4
      modifies this
      ensures Valid() && Mirrors(h) && Account() == ViewReserved(limit, old(Account()), v)
      ensures Grew(old(blocks), old(cache), old(next), old(memory), blocks, cache, next, memory)
      ensures address != 0 ==> status == old(status) && v in cache && cache[v] == address
      ensures address == 0 ==> status != Staged
    {
      ghost var before, start, earlier := memory, next, blocks;
      address := Allocate(4 * v.length, ForView(v));
      if address != 0 {
        CopyElements(host, v, address);
        MirrorsBelow(earlier, start, cache, h, before, memory);
        cache := cache[v := address];
      }
    }

    method CopyElements(host: array<int>, v: HostView, address: nat)
      requires Valid() && Int32s(host[..]) && InsideView(host.Length, v) && address + 4 * v.length <= size
      modifies this`memory
      ensures Valid() && SameBelow(old(memory), memory, address) && Holds(memory, address, ViewValues(host[..], v))
    {
      ghost var values, before := ViewValues(host[..], v), memory;
      for i := 0 to v.length
        invariant Copied(before, memory, size, address, values, i)
      {
        InsideAt(host.Length, v, i);
        var value := host[v.base + Times(i, v.stride)];
        CopyStep(before, memory, size, address, values, i, value);
        memory := Stored(memory, address + i * 4, ToBytes(Word(value), 4));
      }
      assert values[..v.length] == values;
    }

    /** Copies a matrix, rows one after another. */
    method CopyMatrix(host: array<int>, v: HostMatrix, ghost job: nat) returns (address: nat)
      requires Valid() && Mirrors(host[..]) && Int32s(host[..]) && InsideMatrix(host.Length, v)
      modifies this
      ensures Valid() && Mirrors(host[..]) && Account() == MatrixReserved(limit, old(Account()), v.rows, v.columns)
      ensures Grew(old(blocks), old(cache), old(next), old(memory), blocks, cache, next, memory)
      ensures address != 0 ==> status == old(status) && cache == old(cache)
      ensures address != 0 ==> Block(address, 4 * Offset(v.rows, v.columns), ForMatrix(job)) in blocks
      ensures address != 0 ==> HoldsRows(memory, address, MatrixValues(host[..], v), v.columns)
      ensures address == 0 ==> status != Staged
    {
      ghost var before, start, earlier := memory, next, blocks;
      address := Allocate(Wrapped(4 * Times(v.rows, v.columns)), ForMatrix(job));
      if address != 0 {
        var copied := CopyRows(host, v, address);
        MirrorsBelow(earlier, start, cache, host[..], before, memory);
        if !copied {
          status := WriteFailed;
          return 0;
        }
      }
    }

    method CopyRows(host: array<int>, v: HostMatrix, address: nat) returns (ok: bool)
      requires Valid() && Int32s(host[..]) && InsideMatrix(host.Length, v)
      modifies this`memory
      ensures Valid() && SameBelow(old(memory), memory, address)
      ensures ok ==> HoldsRows(memory, address, MatrixValues(host[..], v), v.columns)
      ensures ok ==> Offset(v.rows, v.columns) == 0 || address + 4 * Offset(v.rows, v.columns) <= size
      ensures address + 4 * Offset(v.rows, v.columns) <= size ==> ok
    {
      ghost var rows, before := MatrixValues(host[..], v), memory;
      for r := 0 to v.rows
        invariant Valid() && SameBelow(before, memory, address)
        invariant HoldsRows(memory, address, rows[..r], v.columns)
        invariant Offset(r, v.columns) == 0 || address + 4 * Offset(r, v.columns) <= size
      {
        ghost var now := memory;
        OffsetMonotone(r, v.rows, v.columns);
        ok := CopyRow(host, v, r, address);
        SameBelowTransitive(before, now, memory, address, address + 4 * Offset(r, v.columns));
        if !ok {
          return;
        }
        RowsNext(now, memory, address, rows, v.columns, r);
      }
      assert rows[..v.rows] == rows;
      ok := true;
    }

    /** Stops at the first element that the memory cannot take. */
    method CopyRow(host: array<int>, v: HostMatrix, r: nat, address: nat) returns (ok: bool)
      requires Valid() && Int32s(host[..]) && InsideMatrix(host.Length, v) && r < v.rows
      modifies this`memory
      ensures Valid() && SameBelow(old(memory), memory, address + 4 * Offset(r, v.columns))
      ensures ok ==> Holds(memory, address + 4 * Offset(r, v.columns), RowValues(host[..], v, r))
      ensures ok <==> v.columns == 0 || address + 4 * Offset(r, v.columns) + 4 * v.columns <= size
    {
      ghost var values, before := RowValues(host[..], v, r), memory;
      var start, from := address + 4 * Times(r, v.columns), Times(r, v.rowStride);
      for i := 0 to v.columns
        invariant Copied(before, memory, size, start, values, i) && (i > 0 ==> start + 4 * i <= size)
      {
        InsideMatrixAt(host.Length, v, r, i);
        var value := host[v.base + from + Times(i, v.columnStride)];
        if start + i * 4 + 4 > size {
          return false;
        }
        CopyStep(before, memory, size, start, values, i, value);
        memory := Stored(memory, start + i * 4, ToBytes(Word(value), 4));
      }
      assert values[..v.columns] == values;
      ok := true;
    }
  }

  function Times(a: nat, b: nat): (product: nat)
    ensures product == Offset(a, b)
  {
    OffsetIsProduct(a, b);
    a * b
  }

  /** The first `i` values have been copied and nothing below them changed. */
  ghost predicate Copied(before: Memory, m: Memory, size: nat, address: nat, values: seq<int>, i: nat) {
    i <= |values| && Plain(m, size) && SameBelow(before, m, address) && Holds(m, address, values[..i])
  }

  lemma CopyStep(before: Memory, m: Memory, size: nat, address: nat, values: seq<int>, i: nat, value: int)
    requires Copied(before, m, size, address, values, i) && i < |values| && value == values[i] && IsInt32(value)
    requires address + 4 * i + 4 <= size
    ensures Copied(before, Stored(m, address + i * 4, ToBytes(Word(value), 4)), size, address, values, i + 1)
  {
    HoldsNext(m, address, values, i);
    var r := Stored(m, address + 4 * i, ToBytes(Word(value), 4));
    StoredBelow(m, address + 4 * i, ToBytes(Word(value), 4));
    SameBelowTransitive(before, m, r, address, address + 4 * i);
    forall x {:trigger x in r.cells} ensures x in r.cells <==> 0 <= x < size {
      assert x in r.cells <==> x in m.cells;
    }
  }

  lemma RowsNext(m: Memory, r: Memory, address: nat, rows: seq<seq<int>>, columns: nat, k: nat)
    requires k < |rows| && HoldsRows(m, address, rows[..k], columns)
    requires SameBelow(m, r, address + 4 * Offset(k, columns))
    requires Holds(r, address + 4 * Offset(k, columns), rows[k])
    requires forall j {:trigger rows[j]} :: 0 <= j < |rows| ==> |rows[j]| == columns
    ensures HoldsRows(r, address, rows[..k + 1], columns)
  {
    HoldsRowsBelow(m, r, address + 4 * Offset(k, columns), address, rows[..k], columns);
    forall j | 0 <= j < k + 1 ensures Holds(r, address + 4 * Offset(j, columns), rows[..k + 1][j]) {
      if j < k {
        assert rows[..k][j] == rows[j];
      }
    }
  }

  lemma CachedBlock(blocks: seq<Block>, next: nat, cache: map<HostView, nat>, v: HostView)
    requires Chained(blocks, next) && v in cache
    requires forall v {:trigger cache[v]} :: v in cache ==> Block(cache[v], 4 * v.length, ForView(v)) in blocks
    ensures FIRST <= cache[v]
  {
    RegionBelow(blocks, next, Block(cache[v], 4 * v.length, ForView(v)));
  }

  /** Blocks, cache and memory only grow. */
  ghost predicate Grew(blocks: seq<Block>, cache: map<HostView, nat>, next: nat, m: Memory,
                       blocks': seq<Block>, cache': map<HostView, nat>, next': nat, m': Memory) {
    && (forall b {:trigger b in blocks'} :: b in blocks ==> b in blocks')
    && (forall v {:trigger v in cache'} :: v in cache ==> v in cache' && cache'[v] == cache[v])
    && next <= next' && SameBelow(m, m', next)
  }

  lemma MirrorsBelow(blocks: seq<Block>, next: nat, cache: map<HostView, nat>, h: seq<int>, m: Memory, r: Memory)
    requires Chained(blocks, next) && SameBelow(m, r, next)
    requires forall v {:trigger cache[v]} :: v in cache ==> Block(cache[v], 4 * v.length, ForView(v)) in blocks
    requires forall v {:trigger cache[v]} :: v in cache ==> Holds(m, cache[v], ViewValues(h, v))
    ensures forall v {:trigger cache[v]} :: v in cache ==> Holds(r, cache[v], ViewValues(h, v))
  {
    forall v | v in cache ensures Holds(r, cache[v], ViewValues(h, v)) {
      RegionBelow(blocks, next, Block(cache[v], 4 * v.length, ForView(v)));
      HoldsBelow(m, r, next, cache[v], ViewValues(h, v));
    }
  }

  lemma RegionBelow(blocks: seq<Block>, next: nat, b: Block)
    requires Chained(blocks, next) && b in blocks
    ensures FIRST <= b.start && b.End() <= next
  {
    var i :| 0 <= i < |blocks| && blocks[i] == b;
  }
}
