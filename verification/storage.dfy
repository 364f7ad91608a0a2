/** Storage of PBQP problems (software/pbqp/pbqp_storage.cpp): the LIFO arena with in-band headers
    and the layout of a problem's arrays in one block. */
module Storage {
  import opened Basics
  import opened GuestMemory
  import opened Commands

  const WORD: nat := 0x1_0000_0000_0000_0000


  // -------------------------------------------------------------------- arena

  /** A live allocation: its bytes start at `offset`; the eight bytes before them hold the amount
      that was used before it. */
  datatype Block = Block(offset: nat, size: nat, before: nat)

  /** The live blocks, oldest first, explain the used amount and the saved headers. */
  ghost predicate Stacked(blocks: seq<Block>, base: nat, start: nat, bytes: seq<Byte>, used: nat) {
    if |blocks| == 0 then used == start <= |bytes|
    else
      var top := blocks[|blocks| - 1];
      && used == top.offset + top.size <= |bytes|
      && top.before + 8 <= top.offset && (base + top.offset) % 8 == 0
      && FromBytes(bytes[top.offset - 8..top.offset]) == top.before
      && Stacked(blocks[..|blocks| - 1], base, start, bytes, top.before)
  }

  /** The used amount is a function of the live blocks. */
  function UsedBy(blocks: seq<Block>, start: nat): nat {
    if |blocks| == 0 then start else blocks[|blocks| - 1].offset + blocks[|blocks| - 1].size
  }

  /** Bytes above the used amount do not matter. */
  lemma {:induction false} StackedFrame(blocks: seq<Block>, base: nat, start: nat, bytes: seq<Byte>,
                                        bytes': seq<Byte>, used: nat)
    requires Stacked(blocks, base, start, bytes, used) && |bytes'| == |bytes|
    requires forall i {:trigger bytes'[i]} :: 0 <= i < used ==> bytes'[i] == bytes[i]
    ensures Stacked(blocks, base, start, bytes', used)
    decreases |blocks|
  {
    if |blocks| > 0 {
      var top := blocks[|blocks| - 1];
      assert bytes'[top.offset - 8..top.offset] == bytes[top.offset - 8..top.offset];
      StackedFrame(blocks[..|blocks| - 1], base, start, bytes, bytes', top.before);
    }
  }

  /** Every live block, header included, lies below what is used. */
  lemma {:induction false} BlockBelow(blocks: seq<Block>, base: nat, start: nat, bytes: seq<Byte>, used: nat, i: nat)
    requires Stacked(blocks, base, start, bytes, used) && i < |blocks|
    ensures blocks[i].before + 8 <= blocks[i].offset && blocks[i].offset + blocks[i].size <= used <= |bytes|
    ensures (base + blocks[i].offset) % 8 == 0
    decreases |blocks|
  {
    if i < |blocks| - 1 {
      var top := blocks[|blocks| - 1];
      BlockBelow(blocks[..|blocks| - 1], base, start, bytes, top.before, i);
    }
  }

  /** Live blocks are aligned, in bounds and disjoint, headers included. */
  lemma {:induction false} BlocksApart(blocks: seq<Block>, base: nat, start: nat, bytes: seq<Byte>, used: nat,
                                       i: nat, j: nat)
    requires Stacked(blocks, base, start, bytes, used) && i < j < |blocks|
    ensures blocks[i].offset + blocks[i].size <= blocks[j].offset - 8
    ensures blocks[i].offset >= 8 && (base + blocks[i].offset) % 8 == 0 && (base + blocks[j].offset) % 8 == 0
    decreases |blocks|
  {
    var top := blocks[|blocks| - 1];
    BlockBelow(blocks, base, start, bytes, used, j);
    if j == |blocks| - 1 {
      BlockBelow(blocks[..|blocks| - 1], base, start, bytes, top.before, i);
    } else {
      BlocksApart(blocks[..|blocks| - 1], base, start, bytes, top.before, i, j);
    }
  }

  /** Writing inside a live block leaves all headers alone. */
  lemma {:induction false} StackedWrite(blocks: seq<Block>, base: nat, start: nat, bytes: seq<Byte>, used: nat,
                                        i: nat, at: nat, value: Byte)
    requires Stacked(blocks, base, start, bytes, used) && i < |blocks|
    requires blocks[i].offset <= at < blocks[i].offset + blocks[i].size && at < |bytes|
    ensures Stacked(blocks, base, start, bytes[at := value], used)
    decreases |blocks|
  {
    var top := blocks[|blocks| - 1];
    var bytes' := bytes[at := value];
    if i == |blocks| - 1 {
      assert bytes'[top.offset - 8..top.offset] == bytes[top.offset - 8..top.offset];
      StackedFrame(blocks[..|blocks| - 1], base, start, bytes, bytes', top.before);
    } else {
      BlocksApart(blocks, base, start, bytes, used, i, |blocks| - 1);
      assert bytes'[top.offset - 8..top.offset] == bytes[top.offset - 8..top.offset];
      StackedWrite(blocks[..|blocks| - 1], base, start, bytes, top.before, i, at, value);
    }
  }

  lemma UsedInBounds(blocks: seq<Block>, base: nat, start: nat, bytes: seq<Byte>, used: nat)
    requires Stacked(blocks, base, start, bytes, used)
    ensures used <= |bytes|
  {
  }

  /** Where the next block of `size` bytes starts, if it fits the capacity and the address space. */
  function NextOffset(base: nat, used: nat, capacity: nat, size: nat): Option<nat> {
    var aligned := AlignUp(base + used + 8);
    if aligned < WORD && aligned - base + size <= capacity then Some(aligned - base) else None
  }

  /** A block may start here: behind a header, at a multiple of eight. */
  predicate Aligned(base: nat, used: nat, o: nat) { used + 8 <= o && (base + o) % 8 == 0 }

  lemma NextAligned(base: nat, used: nat, capacity: nat, size: nat)
    requires NextOffset(base, used, capacity, size).Some?
    ensures var offset := NextOffset(base, used, capacity, size).value;
            used + 8 <= offset && offset + size <= capacity && (base + offset) % 8 == 0
  {
  }

  /** The least place for a block, or none where every place is out of capacity or address space. */
  lemma NextExactly(base: nat, used: nat, capacity: nat, size: nat, o: nat)
    requires Aligned(base, used, o)
    ensures var next := NextOffset(base, used, capacity, size);
            if next.Some? then Aligned(base, used, next.value) && next.value <= o && next.value + size <= capacity
            else base + o >= WORD || o + size > capacity
  {
    AlignLeast(base + used + 8, base + o);
  }

  lemma AlignLeast(x: nat, y: nat)
    requires x <= y && y % 8 == 0
    ensures AlignUp(x) <= y
  {
  }

  /** Rounding up with 64-bit wrap-around shows in the result exactly when it happens. */
  lemma AlignWraps(x: nat)
    requires x < WORD
    ensures var aligned := (x + 7) % WORD / 8 * 8;
            if x + 7 < WORD then x <= aligned == AlignUp(x) < WORD else aligned < x && AlignUp(x) >= WORD
  {
  }

  /** The pointer arithmetic, with its wrap-around tests, finds exactly that offset. */
  method PlaceBlock(base: nat, used: nat, capacity: nat, size: nat) returns (offset: Option<nat>)
    requires base + capacity <= WORD && used <= capacity && size < WORD
    ensures offset == NextOffset(base, used, capacity, size)
  {
    if used > WORD - 1 - 8 - 7 {
      return None;
    }
    var current := (base + used + 8) % WORD;
    if current < base {
      return None;
    }
    assert current == base + used + 8;
    AlignWraps(current);
    var aligned := (current + 7) % WORD / 8 * 8;
    if aligned < current {
      return None;
    }
    if aligned - base > capacity || size > capacity - (aligned - base) {
      return None;
    }
    offset := Some(aligned - base);
  }

  /** Stores an eight-byte header. */
  method StoreHeader(storage: array<Byte>, at: nat, value: nat)
    requires at + 8 <= storage.Length && value < WORD
    modifies storage
    ensures forall i {:trigger storage[i]} :: 0 <= i < storage.Length && !(at <= i < at + 8) ==>
              storage[i] == old(storage[i])
    ensures FromBytes(storage[at..at + 8]) == value
  {
    var header := ToBytes(value, 8);
    for i := 0 to 8
      invariant forall j {:trigger storage[j]} :: 0 <= j < storage.Length && !(at <= j < at + i) ==>
                  storage[j] == old(storage[j])
      invariant forall j {:trigger header[j]} :: 0 <= j < i ==> storage[at + j] == header[j]
    {
      storage[at + i] := header[i];
    }
    assert storage[at..at + 8] == header;
    Powers();
    FromToBytes(value, 8);
  }

  lemma StackedPush(blocks: seq<Block>, base: nat, start: nat, bytes: seq<Byte>, bytes': seq<Byte>, used: nat,
                    block: Block)
    requires Stacked(blocks, base, start, bytes, used) && |bytes'| == |bytes|
    requires block.before == used && used + 8 <= block.offset && block.offset + block.size <= |bytes|
    requires (base + block.offset) % 8 == 0 && FromBytes(bytes'[block.offset - 8..block.offset]) == used
    requires forall i {:trigger bytes'[i]} :: 0 <= i < used ==> bytes'[i] == bytes[i]
    ensures Stacked(blocks + [block], base, start, bytes', block.offset + block.size)
  {
    StackedFrame(blocks, base, start, bytes, bytes', used);
    assert (blocks + [block])[..|blocks|] == blocks;
  }

  class Arena {
    const base: nat
    const storage: array<Byte>
    var used: nat
    ghost var start: nat
    ghost var live: seq<Block>

    ghost predicate Valid()
      reads this, storage
    {
      base + storage.Length <= WORD && Stacked(live, base, start, storage[..], used)
    }

    constructor (base: nat, storage: array<Byte>)
      requires base + storage.Length <= WORD
      ensures Valid() && live == [] && used == 0 && this.storage == storage && this.base == base
    {
      this.base := base;
      this.storage := storage;
      used, start, live := 0, 0, [];
    }

    /** A block above what is used, aligned, with the used amount saved before it. */
    method Allocate(size: nat) returns (block: Option<nat>)
      requires Valid() && size < WORD
      modifies this, storage
      ensures Valid() && start == old(start)
      ensures block == NextOffset(base, old(used), storage.Length, size)
      ensures live == if block.None? then old(live) else old(live) + [Block(block.value, size, old(used))]
      ensures used == UsedBy(live, start)
      ensures forall i {:trigger storage[i]} :: 0 <= i < old(used) ==> storage[i] == old(storage[i])
    {
      UsedByStack(live, base, start, storage[..], used);
      UsedInBounds(live, base, start, storage[..], used);
      block := PlaceBlock(base, used, storage.Length, size);
      if block.Some? {
        NextAligned(base, used, storage.Length, size);
        Push(block.value, size);
      }
    }

    /** Saves the used amount and claims the block. */
    method Push(offset: nat, size: nat)
      requires Valid() && used + 8 <= offset && offset + size <= storage.Length && (base + offset) % 8 == 0
      modifies this, storage
      ensures Valid() && start == old(start) && live == old(live) + [Block(offset, size, old(used))]
      ensures used == UsedBy(live, start)
      ensures forall i {:trigger storage[i]} :: 0 <= i < old(used) ==> storage[i] == old(storage[i])
    {
      ghost var before := storage[..];
      StoreHeader(storage, offset - 8, used);
      StackedPush(live, base, start, before, storage[..], used, Block(offset, size, used));
      live := live + [Block(offset, size, used)];
      used := offset + size;
    }

    /** Frees live block `i`: the newest one gives back everything since its allocation, header
        and padding included; any other is ignored. */
    method Deallocate(offset: nat, size: nat, ghost i: nat)
      requires Valid() && i < |live| && live[i].offset == offset && live[i].size == size
      modifies this
      ensures Valid() && start == old(start)
      ensures live == if i == |old(live)| - 1 then old(live)[..i] else old(live)
      ensures used == UsedBy(live, start)
    {
      BlockBelow(live, base, start, storage[..], used, i);
      if i < |live| - 1 {
        BlocksApart(live, base, start, storage[..], used, i, |live| - 1);
      }
      UsedByStack(live, base, start, storage[..], used);
      if offset + size != used {
        return;
      }
      used := FromBytes(storage[offset - 8..offset]);
      live := live[..|live| - 1];
      UsedByStack(live, base, start, storage[..], used);
    }
  }

  lemma UsedByStack(blocks: seq<Block>, base: nat, start: nat, bytes: seq<Byte>, used: nat)
    requires Stacked(blocks, base, start, bytes, used)
    ensures used == UsedBy(blocks, start)
  {
  }

  // ------------------------------------------------------------------- layout

  const SIZE_MAX: nat := UINT64_MAX

  /** An array of `count` elements of `size` bytes. */
  datatype Section = Section(count: nat, size: nat)

  function ByteCount(s: Section): nat { Offset(s.count, s.size) }

  /** The overflow test of a product. */
  lemma ProductFits(count: nat, size: nat)
    requires count > 0
    ensures size <= SIZE_MAX / count <==> Offset(count, size) <= SIZE_MAX
  {
    OffsetIsProduct(count, size);
    var q := SIZE_MAX / count;
    Multiplied(count, size, q);
    Multiplied(count, q + 1, size);
    assert count * q + SIZE_MAX % count == SIZE_MAX;
    assert count * (q + 1) == count * q + count;
  }

  lemma Multiplied(count: nat, a: nat, b: nat)
    ensures a <= b ==> count * a <= count * b
  {
  }

  /** Adds the aligned bytes of a section to a running total, unless something overflows. */
  method AddStorage(total: nat, s: Section) returns (sum: Option<nat>)
    requires total <= SIZE_MAX
    ensures sum == Extended(total, s)
  {
    if s.count != 0 {
      ProductFits(s.count, s.size);
      if s.size > SIZE_MAX / s.count {
        return None;
      }
    }
    OffsetIsProduct(s.count, s.size);
    var bytes := s.count * s.size;
    if bytes > SIZE_MAX - 7 {
      return None;
    }
    var aligned := (bytes + 7) / 8 * 8;
    if total > SIZE_MAX - aligned {
      return None;
    }
    sum := Some(total + aligned);
  }

  function Extended(total: nat, s: Section): Option<nat> {
    if ByteCount(s) + 7 <= SIZE_MAX && total + AlignUp(ByteCount(s)) <= SIZE_MAX
    then Some(total + AlignUp(ByteCount(s))) else None
  }

  /** The bytes each section takes, padded to the alignment. */
  function Padded(sections: seq<Section>): (sizes: seq<nat>)
    ensures |sizes| == |sections|
    ensures forall k {:trigger sizes[k]} :: 0 <= k < |sizes| ==> sizes[k] == AlignUp(ByteCount(sections[k]))
  {
    seq(|sections|, k requires 0 <= k < |sections| => AlignUp(ByteCount(sections[k])))
  }

  /** Where section `k` starts. */
  function Start(sizes: seq<nat>, k: nat): nat
    requires k <= |sizes|
  {
    if k == 0 then 0 else Start(sizes, k - 1) + sizes[k - 1]
  }

  lemma {:induction false} StartMonotone(sizes: seq<nat>, i: nat, j: nat)
    requires i < j <= |sizes|
    ensures Start(sizes, i) + sizes[i] <= Start(sizes, j)
  {
    if i < j - 1 {
      StartMonotone(sizes, i, j - 1);
    }
  }

  /** Sections start on eight-byte boundaries. */
  lemma {:induction false} StartAligned(sizes: seq<nat>, k: nat)
    requires k <= |sizes| && forall i :: 0 <= i < |sizes| ==> sizes[i] % 8 == 0
    ensures Start(sizes, k) % 8 == 0
  {
    if k > 0 {
      StartAligned(sizes, k - 1);
    }
  }

  /** The measured size of the first `k` sections. */
  function Measured(sections: seq<Section>, k: nat): Option<nat>
    requires k <= |sections|
  {
    if k == 0 then Some(0)
    else
      match Measured(sections, k - 1)
      case None => None
      case Some(total) => Extended(total, sections[k - 1])
  }

  /** The measured size is where the last section ends, and nothing overflowed. */
  lemma {:induction false} MeasuredEnds(sections: seq<Section>, k: nat)
    requires k <= |sections| && Measured(sections, k).Some?
    ensures Measured(sections, k).value == Start(Padded(sections), k) <= SIZE_MAX
  {
    if k > 0 {
      MeasuredEnds(sections, k - 1);
    }
  }

  lemma AlignFacts(x: nat)
    ensures AlignUp(x) % 8 == 0 && AlignUp(x) >= x
  {
  }

  /** Sections bound one after another are aligned, disjoint and end inside the total. */
  lemma SectionsApart(sections: seq<Section>, i: nat, j: nat, sizes: seq<nat>)
    requires i < j <= |sections| && sizes == Padded(sections)
    ensures Start(sizes, i) % 8 == 0
    ensures Start(sizes, i) + ByteCount(sections[i]) <= Start(sizes, j) <= Start(sizes, |sizes|)
  {
    StartMonotone(sizes, i, j);
    AlignFacts(ByteCount(sections[i]));
    forall k | 0 <= k < |sizes| ensures sizes[k] % 8 == 0 {
      AlignFacts(ByteCount(sections[k]));
    }
    StartAligned(sizes, i);
    if j < |sizes| {
      StartMonotone(sizes, j, |sizes|);
    }
  }

  /** The arrays of a problem, in storage order. */
  function ProblemSections(nodes: nat, edges: nat, domain: nat, nodeSize: nat, edgeSize: nat): seq<Section> {
    var square := Offset(domain, domain);
    [Section(nodes, nodeSize), Section(edges, edgeSize), Section(Offset(nodes, domain), 4),
     Section(Offset(edges, square), 4), Section(nodes, 4), Section(Offset(nodes, square), 4),
     Section(7 * nodes + domain + 3, 4)]
  }

  /** The arrays of a problem never overlap and fit the block whose size was measured for them. */
  lemma ProblemArraysApart(nodes: nat, edges: nat, domain: nat, nodeSize: nat, edgeSize: nat, total: nat,
                           i: nat, j: nat)
    requires Measured(ProblemSections(nodes, edges, domain, nodeSize, edgeSize), 7) == Some(total) && i < j <= 7
    ensures var sections := ProblemSections(nodes, edges, domain, nodeSize, edgeSize);
            var sizes := Padded(sections);
            && Start(sizes, i) % 8 == 0
            && Start(sizes, i) + ByteCount(sections[i]) <= Start(sizes, j) <= total <= SIZE_MAX
  {
    var sections := ProblemSections(nodes, edges, domain, nodeSize, edgeSize);
    MeasuredEnds(sections, 7);
    SectionsApart(sections, i, j, Padded(sections));
  }

  /** The measuring pass over all sections. */
  method StorageSize(sections: seq<Section>) returns (total: Option<nat>)
    ensures total == Measured(sections, |sections|)
  {
    total := Some(0);
    for k := 0 to |sections|
      invariant total == Measured(sections, k) && (total.Some? ==> total.value <= SIZE_MAX)
    {
      if total.Some? {
        total := AddStorage(total.value, sections[k]);
      }
    }
  }

  /** Slices of an array, one after another, are disjoint and fill it. */
  lemma SlicesApart(sizes: seq<nat>, i: nat, j: nat)
    requires i < j <= |sizes|
    ensures Start(sizes, i) + sizes[i] <= Start(sizes, j) <= Start(sizes, |sizes|)
  {
    StartMonotone(sizes, i, j);
    if j < |sizes| {
      StartMonotone(sizes, j, |sizes|);
    }
  }

  /** So many slices of the same size: one row of costs per node, one matrix per edge. */
  function Equal(count: nat, width: nat): (sizes: seq<nat>)
    ensures |sizes| == count && forall k {:trigger sizes[k]} :: 0 <= k < count ==> sizes[k] == width
  {
    seq(count, k => width)
  }

  /** A pointer that advances by `width` per slice is where the slice starts. */
  lemma {:induction false} EqualStart(count: nat, width: nat, k: nat)
    requires k <= count
    ensures Start(Equal(count, width), k) == Offset(k, width)
  {
    if k > 0 {
      EqualStart(count, width, k - 1);
    }
  }

  /** The statistics arrays: histogram of degrees, nodes, choices, three cascade counts, histogram of
      cascade lengths, histogram of vector lengths. */
  function StatisticsSlices(nodes: nat, domain: nat): seq<nat> {
    [nodes + 1, nodes, nodes, nodes, nodes, nodes, nodes + 1, domain + 1]
  }

  lemma StatisticsFill(nodes: nat, domain: nat)
    ensures Start(StatisticsSlices(nodes, domain), 8) == 7 * nodes + domain + 3
  {
    var sizes := StatisticsSlices(nodes, domain);
    assert Start(sizes, 1) == nodes + 1;
    assert Start(sizes, 2) == 2 * nodes + 1;
    assert Start(sizes, 3) == 3 * nodes + 1;
    assert Start(sizes, 4) == 4 * nodes + 1;
    assert Start(sizes, 5) == 5 * nodes + 1;
    assert Start(sizes, 6) == 6 * nodes + 1;
    assert Start(sizes, 7) == 7 * nodes + 2;
  }

  /** Slices of section `at`, whose elements take four bytes, are disjoint and inside the block. */
  lemma SliceBytes(sections: seq<Section>, at: nat, sizes: seq<nat>, total: nat, i: nat, j: nat)
    requires at < |sections| && Measured(sections, |sections|) == Some(total)
    requires sections[at] == Section(Start(sizes, |sizes|), 4) && i < j <= |sizes|
    ensures var first := Start(Padded(sections), at);
            && first + 4 * Start(sizes, i) + 4 * sizes[i] <= first + 4 * Start(sizes, j)
            && first + 4 * Start(sizes, j) <= Start(Padded(sections), at + 1) <= total
  {
    SlicesApart(sizes, i, j);
    MeasuredEnds(sections, |sections|);
    SectionsApart(sections, at, at + 1, Padded(sections));
    OffsetIsProduct(Start(sizes, |sizes|), 4);
  }

  /** All slices a problem's pointers are bound to: the unary vector of every node, the matrix of every
      edge and the eight statistics arrays never overlap and stay inside the measured size. */
  lemma ProblemSlicesApart(nodes: nat, edges: nat, domain: nat, nodeSize: nat, edgeSize: nat, total: nat, i: nat,
                           j: nat)
    requires Measured(ProblemSections(nodes, edges, domain, nodeSize, edgeSize), 7) == Some(total) && i < j
    ensures var starts := Padded(ProblemSections(nodes, edges, domain, nodeSize, edgeSize));
            && (j <= nodes ==>
                  Start(starts, 2) + 4 * (Offset(i, domain) + domain)
                  <= Start(starts, 2) + 4 * Offset(j, domain) <= total)
            && (j <= edges ==>
                  var square := Offset(domain, domain);
                  Start(starts, 3) + 4 * (Offset(i, square) + square)
                  <= Start(starts, 3) + 4 * Offset(j, square) <= total)
            && (j <= 8 ==>
                  var slices := StatisticsSlices(nodes, domain);
                  Start(starts, 6) + 4 * (Start(slices, i) + slices[i])
                  <= Start(starts, 6) + 4 * Start(slices, j) <= total)
  {
    var sections := ProblemSections(nodes, edges, domain, nodeSize, edgeSize);
    var square := Offset(domain, domain);
    if j <= nodes {
      EqualStart(nodes, domain, nodes);
      EqualStart(nodes, domain, i);
      EqualStart(nodes, domain, j);
      SliceBytes(sections, 2, Equal(nodes, domain), total, i, j);
    }
    if j <= edges {
      EqualStart(edges, square, edges);
      EqualStart(edges, square, i);
      EqualStart(edges, square, j);
      SliceBytes(sections, 3, Equal(edges, square), total, i, j);
    }
    if j <= 8 {
      StatisticsFill(nodes, domain);
      SliceBytes(sections, 6, StatisticsSlices(nodes, domain), total, i, j);
    }
  }
}
