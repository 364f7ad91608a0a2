/** Descriptor fetch and ordered batches as both devices must run them (doc/arch.md section 8.5,
    accelerator/src/accelerator.cpp and accelerator/src/l2_accelerator.cpp: read_command, fetch,
    execute_batch, batch, protect; pcaalib/src/pcaa.c: pcaa_output_overlaps). */
module Batches {
  import opened Basics
  import opened GuestMemory
  import opened Commands
  import opened Codec
  import opened Semantics

  // -------------------------------------------------------------------- fetch

  /** The command at `address`, of which `available` bytes may be read. */
  function Fetch(m: Memory, address: nat, available: nat): Option<Decoded> {
    if address == 0 || available < 8 || !Readable(m, address, 8) then None
    else
      match WireSize(ByteAt(m, address), ByteAt(m, address + 1))
      case None => None
      case Some(size) =>
        if size > available || address > UINT64_MAX - size || !Readable(m, address, size) then None
        else Decode(Bytes(m, address, size))
  }

  lemma FetchedSize(m: Memory, address: nat, available: nat)
    requires Fetch(m, address, available).Some?
    ensures var d := Fetch(m, address, available).value;
            32 <= d.size <= available && Validate(d.command) == Fine
  {
    var d := Fetch(m, address, available).value;
    EncodeDecode(Bytes(m, address, WireSize(ByteAt(m, address), ByteAt(m, address + 1)).value));
  }

  /** A fetch sees only the bytes it may read. */
  lemma FetchKept(m: Memory, r: Memory, address: nat, available: nat)
    requires r.cells.Keys == m.cells.Keys
    requires forall x {:trigger ByteAt(r, x)} :: address <= x < address + available ==> ByteAt(r, x) == ByteAt(m, x)
    ensures Fetch(r, address, available) == Fetch(m, address, available)
  {
    if address > 0 && available >= 8 && Readable(m, address, 8) {
      assert Readable(r, address, 8);
      assert ByteAt(r, address) == ByteAt(m, address) && ByteAt(r, address + 1) == ByteAt(m, address + 1);
      var size := WireSize(ByteAt(m, address), ByteAt(m, address + 1));
      if size.Some? && size.value <= available {
        assert Readable(r, address, size.value) <==> Readable(m, address, size.value);
        assert Bytes(r, address, size.value) == Bytes(m, address, size.value);
      }
    }
  }

  // --------------------------------------------------------------- protection

  /** Some of the first `n` outputs meets the range. */
  predicate Hits(p: Shape, begin: nat, end: nat, n: nat) {
    n > 0 && (Hits(p, begin, end, n - 1) || Overlaps(Slot(p, n - 1), Slot(p, n - 1) + OutWidth(p), begin, end))
  }

  lemma {:induction false} HitsMore(p: Shape, begin: nat, end: nat, k: nat, n: nat)
    requires k <= n && Hits(p, begin, end, k)
    ensures Hits(p, begin, end, n)
  {
    if k < n {
      HitsMore(p, begin, end, k, n - 1);
    }
  }

  lemma {:induction false} NotHit(p: Shape, begin: nat, end: nat, n: nat, o: nat)
    requires o < n && !Hits(p, begin, end, n)
    ensures !Overlaps(Slot(p, o), Slot(p, o) + OutWidth(p), begin, end)
  {
    if o < n - 1 {
      NotHit(p, begin, end, n - 1, o);
    }
  }

  /** A command that does not hit a range leaves its bytes alone, even when it fails. */
  lemma RangeKept(p: Shape, before: Memory, after: Memory, begin: nat, end: nat, x: int)
    requires OnlyOutputs(p, before, after) && !Hits(p, begin, end, p.rows) && begin <= x < end
    ensures ByteAt(after, x) == ByteAt(before, x)
  {
    if Touched(p, x) {
      var o :| 0 <= o < p.rows && InSlot(p, o, x);
      NotHit(p, begin, end, p.rows, o);
    }
  }

  // ------------------------------------------------------------------ batches

  /** The protected ranges of a batch: its child stream and its own descriptor. */
  datatype Guard = Guard(stream: nat, end: nat, descriptor: nat, descriptorEnd: nat)

  ghost predicate SameGuarded(g: Guard, m: Memory, r: Memory) {
    && r.cells.Keys == m.cells.Keys && r.rom == m.rom
    && (forall x {:trigger ByteAt(r, x)} :: g.stream <= x < g.end ==> ByteAt(r, x) == ByteAt(m, x))
    && (forall x {:trigger ByteAt(r, x)} :: g.descriptor <= x < g.descriptorEnd ==> ByteAt(r, x) == ByteAt(m, x))
  }

  /** The next child, if it can be fetched, is a primitive and stores outside the guard. */
  function NextChild(m: Memory, cursor: nat, g: Guard): Option<Decoded> {
    if cursor > g.end then None
    else
      match Fetch(m, cursor, g.end - cursor)
      case None => None
      case Some(d) =>
        if d.command.Batch? || Hits(Lower(d.command), g.stream, g.end, Lower(d.command).rows)
           || Hits(Lower(d.command), g.descriptor, g.descriptorEnd, Lower(d.command).rows)
        then None else Some(d)
  }

  /** What one child does: the memory it leaves and the stream bytes it took. */
  datatype Moved = Moved(memory: Memory, size: nat)

  type Step = (Memory, nat) -> Option<Moved>

  /** A child runs on the memory its predecessors left, or stops the batch. */
  ghost function ChildStep(g: Guard, m: Memory, cursor: nat): Option<Moved> {
    match NextChild(m, cursor, g)
    case None => None
    case Some(d) =>
      match Spec(Lower(d.command), m)
      case None => None
      case Some(next) => Some(Moved(next, d.size))
  }

  /** How a batch ends: after all children, or at the child it could not complete, with the memory
      and the place in the stream that the children before it left. */
  datatype Run = Finished(memory: Memory, cursor: nat) | Stopped(index: nat, memory: Memory, cursor: nat)

  /** Children in order from child `i`; the first failure stops the batch. */
  ghost function RunAll(step: Step, m: Memory, cursor: nat, i: nat, count: nat): Run
    decreases count - i
  {
    if i >= count then Finished(m, cursor)
    else
      match step(m, cursor)
      case None => Stopped(i, m, cursor)
      case Some(moved) => RunAll(step, moved.memory, cursor + moved.size, i + 1, count)
  }

  ghost function StepOf(g: Guard): Step { (m: Memory, cursor: nat) => ChildStep(g, m, cursor) }

  /** A whole batch. */
  ghost function Children(m: Memory, cursor: nat, g: Guard, count: nat): Run {
    RunAll(StepOf(g), m, cursor, 0, count)
  }

  function GuardOf(c: Command, descriptor: nat): Guard
    requires c.Batch?
  {
    Guard(c.children, c.children + c.childBytes, descriptor, descriptor + 32)
  }

  /** The record must not overwrite what the batch still reads. */
  predicate Conflicts(c: Command, descriptor: nat)
    requires c.Batch?
  {
    || Overlaps(c.result, c.result + 8, c.children, c.children + c.childBytes)
    || Overlaps(c.result, c.result + 8, descriptor, descriptor + 32)
  }

  function Completion(completed: nat, failed: nat): (bytes: seq<Byte>)
    ensures |bytes| == 8
  {
    ToBytes(completed, 4) + ToBytes(failed, 4)
  }

  /** The child that stopped a batch may have stored into its own outputs, and nowhere else. */
  ghost predicate StopsAt(g: Guard, before: Memory, cursor: nat, now: Memory) {
    match NextChild(before, cursor, g)
    case None => now == before
    case Some(d) => OnlyOutputs(Lower(d.command), before, now)
  }

  /** The completion record is stored, or a writable part of it where it cannot be. */
  ghost predicate Recorded(now: Memory, address: nat, bytes: seq<Byte>, after: Memory) {
    if Writable(now, address, |bytes|) then after == Stored(now, address, bytes)
    else exists k: nat :: k < |bytes| && Writable(now, address, k) && after == Stored(now, address, bytes[..k])
  }

  /** What a device must have done with a batch: the completion record over the memory of the
      children, all of them or those before the failing one, and the guarded bytes untouched. */
  ghost predicate BatchDone(c: Command, descriptor: nat, m: Memory, ok: bool, after: Memory)
    requires c.Batch?
  {
    var g := GuardOf(c, descriptor);
    if Conflicts(c, descriptor) then !ok && after == m
    else
      && SameGuarded(g, m, after)
      && match Children(m, c.children, g, c.count)
         case Stopped(i, before, cursor) =>
           !ok && exists now ::
             StopsAt(g, before, cursor, now) && Recorded(now, c.result, Completion(i, i), after)
         case Finished(last, cursor) =>
           if cursor != g.end then
             !ok && Recorded(last, c.result, Completion(c.count, c.count), after)
           else
             && (ok <==> Writable(m, c.result, 8))
             && Recorded(last, c.result, Completion(c.count, UINT32_MAX), after)
  }

  // --------------------------------------------------------------- guard lemmas

  lemma GuardTransitive(g: Guard, a: Memory, b: Memory, c: Memory)
    requires SameGuarded(g, a, b) && SameGuarded(g, b, c)
    ensures SameGuarded(g, a, c)
  {
    forall x | g.stream <= x < g.end ensures ByteAt(c, x) == ByteAt(a, x) {
      assert ByteAt(b, x) == ByteAt(a, x);
    }
    forall x | g.descriptor <= x < g.descriptorEnd ensures ByteAt(c, x) == ByteAt(a, x) {
      assert ByteAt(b, x) == ByteAt(a, x);
    }
  }

  /** A child that passed the checks keeps the guarded bytes, even when it fails. */
  lemma ChildKeepsGuard(g: Guard, m: Memory, cursor: nat, after: Memory)
    requires NextChild(m, cursor, g).Some?
    requires OnlyOutputs(Lower(NextChild(m, cursor, g).value.command), m, after)
    ensures SameGuarded(g, m, after)
  {
    var p := Lower(NextChild(m, cursor, g).value.command);
    forall x | g.stream <= x < g.end ensures ByteAt(after, x) == ByteAt(m, x) {
      RangeKept(p, m, after, g.stream, g.end, x);
    }
    forall x | g.descriptor <= x < g.descriptorEnd ensures ByteAt(after, x) == ByteAt(m, x) {
      RangeKept(p, m, after, g.descriptor, g.descriptorEnd, x);
    }
  }

  /** The record keeps the guarded bytes. */
  lemma RecordKeepsGuard(c: Command, descriptor: nat, now: Memory, bytes: seq<Byte>, after: Memory)
    requires c.Batch? && !Conflicts(c, descriptor) && |bytes| <= 8 && Recorded(now, c.result, bytes, after)
    ensures SameGuarded(GuardOf(c, descriptor), now, after)
  {
    var g := GuardOf(c, descriptor);
    forall x | g.stream <= x < g.end ensures ByteAt(after, x) == ByteAt(now, x) {
      assert x in now.cells ==> ByteAt(after, x) == ByteAt(now, x);
    }
    forall x | g.descriptor <= x < g.descriptorEnd ensures ByteAt(after, x) == ByteAt(now, x) {
      assert x in now.cells ==> ByteAt(after, x) == ByteAt(now, x);
    }
  }

  lemma RecordReadBack(m: Memory, address: nat, bytes: seq<Byte>)
    requires Writable(m, address, |bytes|)
    ensures Bytes(Stored(m, address, bytes), address, |bytes|) == bytes
  {
    var after := Stored(m, address, bytes);
    forall i | 0 <= i < |bytes| ensures ByteAt(after, address + i) == bytes[i] {
      assert address + i in m.cells;
    }
  }

  /** Because the stream is untouched, each child is the one encoded there at the start. */
  lemma ChildFromStart(g: Guard, m: Memory, now: Memory, cursor: nat)
    requires SameGuarded(g, m, now) && g.stream <= cursor <= g.end
    ensures NextChild(now, cursor, g) == NextChild(m, cursor, g)
  {
    FetchKept(m, now, cursor, g.end - cursor);
  }

  // ------------------------------------------------------------------ fail-stop

  /** A run stops at child `j` exactly when the children before it complete and it does not. */
  lemma {:induction false} StopsExactly(step: Step, m: Memory, cursor: nat, i: nat, count: nat, j: nat, before: Memory,
                                        place: nat)
    ensures RunAll(step, m, cursor, i, count) == Stopped(j, before, place) <==>
            i <= j < count && RunAll(step, m, cursor, i, j) == Finished(before, place) && step(before, place).None?
    decreases count - i
  {
    if i < count && step(m, cursor).Some? {
      var moved := step(m, cursor).value;
      StopsExactly(step, moved.memory, cursor + moved.size, i + 1, count, j, before, place);
    }
  }

  /** The completion record of a batch covers the byte. */
  predicate InRecord(c: Command, x: int)
    requires c.Batch?
  {
    c.result <= x < c.result + 8
  }

  /** Bytes a failed batch leaves open: the outputs of the child it stopped at, and a record that
      cannot be written. */
  ghost predicate BatchOpen(c: Command, descriptor: nat, m: Memory, x: int)
    requires c.Batch?
  {
    var g := GuardOf(c, descriptor);
    if Conflicts(c, descriptor) then false
    else if InRecord(c, x) then !Writable(m, c.result, 8)
    else
      match Children(m, c.children, g, c.count)
      case Finished(_, _) => false
      case Stopped(_, before, cursor) =>
        NextChild(before, cursor, g).Some? && Touched(Lower(NextChild(before, cursor, g).value.command), x)
  }

  /** The memory a batch is bound to leave, but for the open bytes: that of the completed children
      under the record. */
  ghost function BatchLeaves(c: Command, descriptor: nat, m: Memory): Memory
    requires c.Batch?
  {
    var g := GuardOf(c, descriptor);
    if Conflicts(c, descriptor) then m
    else
      match Children(m, c.children, g, c.count)
      case Stopped(i, before, _) => Stored(before, c.result, Completion(i, i))
      case Finished(last, cursor) =>
        Stored(last, c.result, Completion(c.count, if cursor == g.end then UINT32_MAX else c.count))
  }

  lemma RecordedByte(now: Memory, address: nat, bytes: seq<Byte>, after: Memory, x: int)
    requires Recorded(now, address, bytes, after)
    requires !(address <= x < address + |bytes|) || Writable(now, address, |bytes|)
    ensures ByteAt(after, x) == ByteAt(Stored(now, address, bytes), x)
    ensures after.cells.Keys == now.cells.Keys && after.rom == now.rom
  {
  }

  lemma StoppedByte(g: Guard, before: Memory, cursor: nat, now: Memory, x: int)
    requires StopsAt(g, before, cursor, now)
    requires NextChild(before, cursor, g).None? || !Touched(Lower(NextChild(before, cursor, g).value.command), x)
    ensures ByteAt(now, x) == ByteAt(before, x)
  {
  }

  lemma StoredByte(a: Memory, b: Memory, address: nat, bytes: seq<Byte>, x: int)
    requires a.cells.Keys == b.cells.Keys
    requires address <= x < address + |bytes| || ByteAt(a, x) == ByteAt(b, x)
    ensures ByteAt(Stored(a, address, bytes), x) == ByteAt(Stored(b, address, bytes), x)
  {
  }

  lemma StoppedLeaves(g: Guard, before: Memory, cursor: nat, now: Memory, address: nat, bytes: seq<Byte>, after: Memory,
                      x: int)
    requires StopsAt(g, before, cursor, now) && Recorded(now, address, bytes, after)
    requires if address <= x < address + |bytes| then Writable(now, address, |bytes|)
             else NextChild(before, cursor, g).None? || !Touched(Lower(NextChild(before, cursor, g).value.command), x)
    ensures ByteAt(after, x) == ByteAt(Stored(before, address, bytes), x)
  {
    RecordedByte(now, address, bytes, after, x);
    if !(address <= x < address + |bytes|) {
      StoppedByte(g, before, cursor, now, x);
    }
    StoredByte(now, before, address, bytes, x);
  }

  /** Completed children keep their results and no child runs after the one that failed: every byte
      that is not open is that of the completed children under the record. */
  lemma BatchLeavesAt(c: Command, descriptor: nat, m: Memory, ok: bool, after: Memory, x: int)
    requires c.Batch? && BatchDone(c, descriptor, m, ok, after) && !BatchOpen(c, descriptor, m, x)
    ensures ByteAt(after, x) == ByteAt(BatchLeaves(c, descriptor, m), x)
  {
    if !Conflicts(c, descriptor) {
      var g := GuardOf(c, descriptor);
      match Children(m, c.children, g, c.count)
      case Stopped(i, before, cursor) =>
        var now :| StopsAt(g, before, cursor, now) && Recorded(now, c.result, Completion(i, i), after);
        assert Writable(now, c.result, 8) <==> Writable(m, c.result, 8);
        StoppedLeaves(g, before, cursor, now, c.result, Completion(i, i), after, x);
      case Finished(last, cursor) =>
        var bytes := Completion(c.count, if cursor == g.end then UINT32_MAX else c.count);
        assert Writable(last, c.result, 8) <==> Writable(m, c.result, 8);
        RecordedByte(last, c.result, bytes, after, x);
    }
  }

  /** A batch that stops at child `i` has completed exactly the children before it, says so in its
      record, and leaves every other byte as they left it, but for the outputs of child `i`. */
  lemma FailStop(c: Command, descriptor: nat, m: Memory, ok: bool, after: Memory)
    requires c.Batch? && BatchDone(c, descriptor, m, ok, after) && !Conflicts(c, descriptor)
    requires Children(m, c.children, GuardOf(c, descriptor), c.count).Stopped?
    ensures var g := GuardOf(c, descriptor);
            var run := Children(m, c.children, g, c.count);
            && !ok && run.index < c.count && Children(m, c.children, g, run.index) == Finished(run.memory, run.cursor)
            && ChildStep(g, run.memory, run.cursor).None?
            && (Writable(m, c.result, 8) ==> Bytes(after, c.result, 8) == Completion(run.index, run.index))
            && forall x {:trigger BatchOpen(c, descriptor, m, x)} ::
                 !BatchOpen(c, descriptor, m, x) && !InRecord(c, x) ==> ByteAt(after, x) == ByteAt(run.memory, x)
  {
    var g := GuardOf(c, descriptor);
    var run := Children(m, c.children, g, c.count);
    StopsExactly(StepOf(g), m, c.children, 0, c.count, run.index, run.memory, run.cursor);
    var now :| StopsAt(g, run.memory, run.cursor, now)
               && Recorded(now, c.result, Completion(run.index, run.index), after);
    if Writable(m, c.result, 8) {
      assert Writable(now, c.result, 8);
      RecordReadBack(now, c.result, Completion(run.index, run.index));
    }
    forall x {:trigger BatchOpen(c, descriptor, m, x)} | !BatchOpen(c, descriptor, m, x) && !InRecord(c, x)
      ensures ByteAt(after, x) == ByteAt(run.memory, x)
    {
      BatchLeavesAt(c, descriptor, m, ok, after, x);
    }
  }
}
