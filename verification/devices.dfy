/** The two devices run descriptors: the functional L0 device and the tiled L2 engine, each proved
    to leave what the batch rules prescribe, so that they agree. */
module Devices {
  import opened Basics
  import opened GuestMemory
  import opened Commands
  import opened Codec
  import opened Semantics
  import opened Batches
  import opened Executor
  import opened Transfers
  import opened Engine
  import opened L2Engine
  import opened Meters

  /** What running one fetched primitive must have done. */
  ghost predicate CommandDone(c: Command, m: Memory, ok: bool, after: Memory)
    requires !c.Batch?
  {
    && (ok <==> Spec(Lower(c), m).Some?)
    && (ok ==> Some(after) == Spec(Lower(c), m))
    && OnlyOutputs(Lower(c), m, after)
  }

  /** What ringing the doorbell must have done. */
  ghost predicate DeviceDone(m: Memory, descriptor: nat, ok: bool, after: Memory) {
    match Fetch(m, descriptor, 64)
    case None => !ok && after == m
    case Some(d) =>
      if d.command.Batch? then BatchDone(d.command, descriptor, m, ok, after)
      else CommandDone(d.command, m, ok, after)
  }

  // ------------------------------------------------------------ running children

  ghost predicate Considered(m: Memory, cursor: nat) { true }

  ghost predicate Steps(step: Step, g: Guard) {
    forall m, cursor {:trigger Considered(m, cursor)} ::
      Considered(m, cursor) ==> step(m, cursor) == ChildStep(g, m, cursor)
  }

  lemma StepOfSteps(g: Guard)
    ensures Steps(StepOf(g), g)
  {
  }

  lemma ChildFits(g: Guard, m: Memory, cursor: nat)
    requires NextChild(m, cursor, g).Some?
    ensures cursor + NextChild(m, cursor, g).value.size <= g.end
  {
    FetchedSize(m, cursor, g.end - cursor);
  }

  /** After all children ran, or the batch stopped at child `index`. */
  ghost predicate LoopDone(run: Run, g: Guard, count: nat, ok: bool, index: nat, cursor: nat, now: Memory) {
    if ok then run == Finished(now, cursor) && index == count
    else run.Stopped? && run.index == index && StopsAt(g, run.memory, run.cursor, now)
  }

  /** Writing the completion record finishes the batch. */
  lemma BatchEnds(c: Command, descriptor: nat, m: Memory, ok: bool, index: nat, cursor: nat, now: Memory,
                  done: bool, written: bool, after: Memory)
    requires c.Batch? && !Conflicts(c, descriptor) && SameGuarded(GuardOf(c, descriptor), m, now)
    requires var g := GuardOf(c, descriptor);
             LoopDone(Children(m, c.children, g, c.count), g, c.count, ok, index, cursor, now)
    requires done == (ok && cursor == GuardOf(c, descriptor).end)
    requires written <==> Writable(now, c.result, 8)
    requires Recorded(now, c.result, Completion(index, if done then UINT32_MAX else index), after)
    ensures BatchDone(c, descriptor, m, written && done, after)
  {
    var g := GuardOf(c, descriptor);
    var bytes := Completion(index, if done then UINT32_MAX else index);
    RecordKeepsGuard(c, descriptor, now, bytes, after);
    GuardTransitive(g, m, now, after);
    assert Writable(now, c.result, 8) <==> Writable(m, c.result, 8);
  }

  // ----------------------------------------------------------------- L0 device

  /** Reads the header, then as many bytes as its format takes. */
  method ReadCommand(m: Memory, address: nat, available: nat) returns (d: Option<Decoded>)
    ensures d == Fetch(m, address, available)
  {
    if address == 0 || available < 8 {
      return None;
    }
    if !Readable(m, address, 8) {
      return None;
    }
    var header := Bytes(m, address, 8);
    var size := WireSize(header[0], header[1]);
    if size.None? || size.value > available || address > UINT64_MAX - size.value {
      return None;
    }
    ReadAppend(m, address, 8, size.value - 8);
    if !Readable(m, address + 8, size.value - 8) {
      return None;
    }
    d := Decode(header + Bytes(m, address + 8, size.value - 8));
  }

  function OutputView(c: Command): Commands.OutputView
    requires !c.Batch?
  {
    if c.Reduce2? || c.Reduce3? then Commands.OutputView(c.result, 1, 1, c.argmin) else c.output
  }

  /** Does any addressed output element meet the range? */
  method OutputHits(c: Command, begin: nat, end: nat) returns (hit: bool)
    requires !c.Batch? && Validate(c) == Fine
    ensures hit == Hits(Lower(c), begin, end, Lower(c).rows)
  {
    ghost var p := Lower(c);
    var out := OutputView(c);
    hit := OutputsHit(out, begin, end, p);
  }

  method OutputsHit(out: Commands.OutputView, begin: nat, end: nat, ghost p: Shape) returns (hit: bool)
    requires p.base == out.base && p.stride == out.stride && p.pair == out.pair && p.rows == out.length
    ensures hit == Hits(p, begin, end, p.rows)
  {
    for o := 0 to out.length
      invariant !Hits(p, begin, end, o)
    {
      var address := OutputAddress(out, o, p);
      if Overlaps(address, address + OutputWidth(out), begin, end) {
        HitsMore(p, begin, end, o + 1, p.rows);
        return true;
      }
    }
    hit := false;
  }

  /** Fetches and checks the next child. */
  method CheckChild(m: Memory, cursor: nat, g: Guard) returns (d: Option<Decoded>)
    requires cursor <= g.end
    ensures d == NextChild(m, cursor, g)
    ensures d.Some? ==> Validate(d.value.command) == Fine && !d.value.command.Batch?
  {
    d := ReadCommand(m, cursor, g.end - cursor);
    if d.None? {
      return;
    }
    FetchedSize(m, cursor, g.end - cursor);
    if d.value.command.Batch? {
      return None;
    }
    var stream := OutputHits(d.value.command, g.stream, g.end);
    var descriptor := OutputHits(d.value.command, g.descriptor, g.descriptorEnd);
    if stream || descriptor {
      return None;
    }
  }

  method RunChildL0(e: L0, cursor: nat, g: Guard, ghost step: Step) returns (ok: bool, size: nat)
    requires cursor <= g.end && Steps(step, g)
    modifies e
    ensures SameGuarded(g, old(e.memory), e.memory)
    ensures ok ==> cursor + size <= g.end && step(old(e.memory), cursor) == Some(Moved(e.memory, size))
    ensures !ok ==> step(old(e.memory), cursor).None? && StopsAt(g, old(e.memory), cursor, e.memory)
  {
    ghost var m := e.memory;
    assert Considered(m, cursor);
    var d := CheckChild(e.memory, cursor, g);
    if d.None? {
      return false, 0;
    }
    ChildFits(g, m, cursor);
    ok := e.ExecuteCommand(d.value.command);
    ChildKeepsGuard(g, m, cursor, e.memory);
    size := d.value.size;
  }

  method RunChildrenL0(e: L0, start: nat, count: nat, g: Guard, ghost step: Step)
    returns (ok: bool, index: nat, cursor: nat)
    requires start <= g.end && Steps(step, g)
    modifies e
    ensures SameGuarded(g, old(e.memory), e.memory)
    ensures LoopDone(RunAll(step, old(e.memory), start, 0, count), g, count, ok, index, cursor, e.memory)
  {
    ghost var m := e.memory;
    cursor := start;
    for i := 0 to count
      invariant cursor <= g.end && SameGuarded(g, m, e.memory)
      invariant RunAll(step, e.memory, cursor, i, count) == RunAll(step, m, start, 0, count)
    {
      ghost var before := e.memory;
      var size;
      ok, size := RunChildL0(e, cursor, g, step);
      GuardTransitive(g, m, before, e.memory);
      if !ok {
        return false, i, cursor;
      }
      cursor := cursor + size;
    }
    ok, index := true, count;
  }

  /** An ordered batch: children in order, fail-stop, then the completion record. */
  method ExecuteBatchL0(e: L0, c: Command, descriptor: nat) returns (ok: bool)
    requires c.Batch?
    modifies e
    ensures BatchDone(c, descriptor, old(e.memory), ok, e.memory)
  {
    if Conflicts(c, descriptor) {
      return false;
    }
    ghost var m := e.memory;
    var g := GuardOf(c, descriptor);
    StepOfSteps(g);
    var ran, index, cursor := RunChildrenL0(e, c.children, c.count, g, StepOf(g));
    var done := ran && cursor == c.children + c.childBytes;
    var bytes := Completion(index, if done then UINT32_MAX else index);
    ghost var now := e.memory;
    var written := e.Write(c.result, bytes);
    assert bytes[..0] == [];
    StoredNothing(now, c.result);
    BatchEnds(c, descriptor, m, ran, index, cursor, now, done, written, e.memory);
    ok := written && done;
  }

  /** The functional device. */
  method ExecuteL0(e: L0, descriptor: nat) returns (ok: bool)
    modifies e
    ensures DeviceDone(old(e.memory), descriptor, ok, e.memory)
  {
    var d := ReadCommand(e.memory, descriptor, 64);
    if d.None? {
      return false;
    }
    FetchedSize(e.memory, descriptor, 64);
    if d.value.command.Batch? {
      ok := ExecuteBatchL0(e, d.value.command, descriptor);
    } else {
      ok := e.ExecuteCommand(d.value.command);
    }
  }

  // ----------------------------------------------------------------- L2 device

  /** The engine may touch the bytes of the command that a fetch finds. */
  ghost predicate FetchAllowed(cfg: Config, m: Memory, address: nat, available: nat) {
    Fetch(m, address, available).Some? ==> Allowed(cfg, address, Fetch(m, address, available).value.size)
  }

  /** What a fetch by the engine found: the command there, or nothing where there is none or where it
      may not be touched. */
  ghost predicate Fetches(cfg: Config, m: Memory, address: nat, available: nat, d: Option<Decoded>) {
    if d.Some? then d == Fetch(m, address, available)
    else Fetch(m, address, available).None? || !FetchAllowed(cfg, m, address, available)
  }

  lemma FetchParts(m: Memory, address: nat, available: nat)
    requires Fetch(m, address, available).Some?
    ensures address > 0 && available >= 8 && Readable(m, address, 8)
    ensures var size := WireSize(ByteAt(m, address), ByteAt(m, address + 1));
            && size == Some(Fetch(m, address, available).value.size) && 8 < size.value <= available
            && address <= UINT64_MAX - size.value && Readable(m, address, size.value)
  {
  }

  /** Header and body as two transfers, each followed by a decode. */
  method FetchL2(cfg: Config, m: Memory, address: nat, available: nat, meter: Meter) returns (d: Option<Decoded>)
    requires cfg.Valid() && Fair(meter.stats, cfg)
    modifies meter
    ensures Fetches(cfg, m, address, available, d)
    ensures Fair(meter.stats, cfg)
    ensures d.Some? ==> Owing(old(meter.stats), meter.stats, DescriptorBill(d.value.size), 2, 0)
  {
    if available < 8 {
      return None;
    }
    var requests := meter.stats.requests;
    ghost var before := meter.stats;
    var ok, header, sizes := TransferRead(cfg, m, address, 8, ForDescriptor, meter);
    if !ok {
      HeaderStops(cfg, m, address, available);
      return None;
    }
    assert ByteAllowed(cfg, address);
    meter.EndFetch(cfg, before, requests, 8, true);
    ghost var fetched := meter.stats;
    var size := WireSize(header[0], header[1]);
    if size.None? || size.value > available || address > UINT64_MAX - size.value {
      return None;
    }
    d := FetchBody(cfg, m, address, size.value, header, meter);
    if d.Some? {
      OwingBoth(before, fetched, meter.stats, DescriptorBill(8), DescriptorBill(size.value - 8), 1, 0, 1, 0);
    }
  }

  lemma HeaderStops(cfg: Config, m: Memory, address: nat, available: nat)
    requires !(Allowed(cfg, address, 8) && Readable(m, address, 8))
    ensures Fetches(cfg, m, address, available, None)
  {
    if Fetch(m, address, available).Some? {
      FetchParts(m, address, available);
      TouchAppend(cfg, m, address, 8, Fetch(m, address, available).value.size - 8);
    }
  }

  method FetchBody(cfg: Config, m: Memory, address: nat, size: nat, header: seq<Byte>, meter: Meter)
    returns (d: Option<Decoded>)
    requires cfg.Valid() && Fair(meter.stats, cfg) && size > 8
    requires Readable(m, address, 8) && header == Bytes(m, address, 8)
    requires WireSize(header[0], header[1]) == Some(size)
    modifies meter
    ensures d.Some? ==> Readable(m, address, size) && d == Decode(Bytes(m, address, size)) && d.value.size == size
    ensures d.None? ==>
              !Readable(m, address, size) || Decode(Bytes(m, address, size)).None? || !Allowed(cfg, address, size)
    ensures Fair(meter.stats, cfg)
    ensures d.Some? ==> Owing(old(meter.stats), meter.stats, DescriptorBill(size - 8), 1, 0)
  {
    TouchAppend(cfg, m, address, 8, size - 8);
    ReadAppend(m, address, 8, size - 8);
    var requests := meter.stats.requests;
    ghost var before := meter.stats;
    var ok, body, sizes := TransferRead(cfg, m, address + 8, size - 8, ForDescriptor, meter);
    if !ok {
      return None;
    }
    meter.EndFetch(cfg, before, requests, size - 8, false);
    d := Decode(header + body);
  }

  /** Checks every output element against both guarded ranges, one cycle each. */
  method Protect(cfg: Config, out: Commands.OutputView, g: Guard, meter: Meter, ghost p: Shape) returns (hit: bool)
    requires p.base == out.base && p.stride == out.stride && p.pair == out.pair && p.rows == out.length
    requires Fair(meter.stats, cfg)
    modifies meter
    ensures hit == (Hits(p, g.stream, g.end, p.rows) || Hits(p, g.descriptor, g.descriptorEnd, p.rows))
    ensures Fair(meter.stats, cfg) && Charged(old(meter.stats), meter.stats, FREE)
  {
    ghost var before := meter.stats;
    ChargeNothing(before, cfg);
    for o := 0 to out.length
      invariant !Hits(p, g.stream, g.end, o) && !Hits(p, g.descriptor, g.descriptorEnd, o)
      invariant Fair(meter.stats, cfg) && Charged(before, meter.stats, FREE)
    {
      ghost var now := meter.stats;
      var address := OutputAddress(out, o, p);
      meter.Check(cfg);
      ChargeFree(before, now, meter.stats, FREE);
      if Overlaps(address, address + OutputWidth(out), g.stream, g.end) {
        HitsMore(p, g.stream, g.end, o + 1, p.rows);
        return true;
      }
      if Overlaps(address, address + OutputWidth(out), g.descriptor, g.descriptorEnd) {
        HitsMore(p, g.descriptor, g.descriptorEnd, o + 1, p.rows);
        return true;
      }
    }
    hit := false;
  }

  /** If the next child completes, the engine may touch its descriptor, operands and outputs. */
  ghost predicate ChildAvoids(cfg: Config, g: Guard, m: Memory, cursor: nat) {
    ChildStep(g, m, cursor).Some? ==>
      && Allowed(cfg, cursor, NextChild(m, cursor, g).value.size)
      && Avoids(cfg, Lower(NextChild(m, cursor, g).value.command))
  }

  type Check = (Memory, nat) -> bool

  /** Every child the run reaches passes the check. */
  ghost predicate RunSafe(step: Step, safe: Check, m: Memory, cursor: nat, i: nat, count: nat)
    decreases count - i
  {
    i >= count
    || (safe(m, cursor)
        && (step(m, cursor).Some? ==>
              RunSafe(step, safe, step(m, cursor).value.memory, cursor + step(m, cursor).value.size, i + 1, count)))
  }

  ghost predicate Checks(safe: Check, cfg: Config, g: Guard) {
    forall m, cursor {:trigger Considered(m, cursor)} ::
      Considered(m, cursor) ==> safe(m, cursor) == ChildAvoids(cfg, g, m, cursor)
  }

  ghost function SafeOf(cfg: Config, g: Guard): Check { (m: Memory, cursor: nat) => ChildAvoids(cfg, g, m, cursor) }

  /** A child that the engine does not get to run is one that does not complete. */
  ghost predicate Finds(cfg: Config, g: Guard, m: Memory, cursor: nat, d: Option<Decoded>) {
    if d.Some? then d == NextChild(m, cursor, g)
    else NextChild(m, cursor, g).None? || !Allowed(cfg, cursor, NextChild(m, cursor, g).value.size)
  }

  method CheckChildL2(cfg: Config, m: Memory, cursor: nat, g: Guard, meter: Meter) returns (d: Option<Decoded>)
    requires cfg.Valid() && cursor <= g.end && Fair(meter.stats, cfg)
    modifies meter
    ensures Finds(cfg, g, m, cursor, d)
    ensures d.Some? ==> Validate(d.value.command) == Fine && !d.value.command.Batch?
    ensures Fair(meter.stats, cfg)
    ensures d.Some? ==> Owing(old(meter.stats), meter.stats, DescriptorBill(d.value.size), 2, 0)
  {
    ghost var before := meter.stats;
    d := FetchL2(cfg, m, cursor, g.end - cursor, meter);
    if d.None? {
      return;
    }
    FetchedSize(m, cursor, g.end - cursor);
    if d.value.command.Batch? {
      return None;
    }
    ghost var now := meter.stats;
    var hit := ProtectCommand(cfg, d.value.command, g, meter);
    if hit {
      return None;
    }
    OwingFree(before, now, meter.stats, DescriptorBill(d.value.size), 2, 0);
  }

  method ProtectCommand(cfg: Config, c: Command, g: Guard, meter: Meter) returns (hit: bool)
    requires !c.Batch? && Validate(c) == Fine && Fair(meter.stats, cfg)
    modifies meter
    ensures hit == (Hits(Lower(c), g.stream, g.end, Lower(c).rows)
                    || Hits(Lower(c), g.descriptor, g.descriptorEnd, Lower(c).rows))
    ensures Fair(meter.stats, cfg) && Charged(old(meter.stats), meter.stats, FREE)
  {
    hit := Protect(cfg, OutputView(c), g, meter, Lower(c));
  }

  type Billing = (Memory, nat) -> Bill

  /** The work of the next child: its descriptor and its command. */
  ghost function ChildWork(cfg: Config, g: Guard, m: Memory, cursor: nat): Bill
    requires cfg.Valid()
  {
    match NextChild(m, cursor, g)
    case None => FREE
    case Some(d) => Combined(DescriptorBill(d.size), CommandBill(d.command, cfg))
  }

  ghost predicate Works(work: Billing, cfg: Config, g: Guard)
    requires cfg.Valid()
  {
    forall m, cursor {:trigger Considered(m, cursor)} ::
      Considered(m, cursor) ==> work(m, cursor) == ChildWork(cfg, g, m, cursor)
  }

  ghost function BillingOf(cfg: Config, g: Guard): Billing
    requires cfg.Valid()
  {
    (m: Memory, cursor: nat) => ChildWork(cfg, g, m, cursor)
  }

  /** The work of all children from child `i` on. */
  ghost function WorkAll(step: Step, work: Billing, m: Memory, cursor: nat, i: nat, count: nat): Bill
    decreases count - i
  {
    if i >= count || step(m, cursor).None? then FREE
    else
      var moved := step(m, cursor).value;
      Combined(work(m, cursor), WorkAll(step, work, moved.memory, cursor + moved.size, i + 1, count))
  }

  lemma CombinedAssociates(x: Bill, y: Bill, z: Bill)
    ensures Combined(Combined(x, y), z) == Combined(x, Combined(y, z))
    ensures Combined(FREE, x) == x && Combined(x, FREE) == x
  {
  }

  /** The pieces of one child add up to its work and leave nothing open. */
  lemma ChildCharge(a: Stats, b: Stats, c: Stats, d: Stats, e: Stats, f: Stats, size: nat, bill: Bill)
    requires Owing(a, b, FREE, -2, 1) && Owing(b, c, DescriptorBill(size), 2, 0) && Charged(c, d, bill)
    requires Charged(d, e, FREE) && Owing(e, f, FREE, 0, -1)
    ensures Charged(a, f, Combined(DescriptorBill(size), bill))
  {
    OwingAfter(a, b, c, DescriptorBill(size), -2, 1, 2, 0);
    OwingNothing(c, d, bill);
    OwingBoth(a, c, d, DescriptorBill(size), bill, 0, 1, 0, 0);
    OwingFree(a, d, e, Combined(DescriptorBill(size), bill), 0, 1);
    OwingThen(a, e, f, Combined(DescriptorBill(size), bill), 0, 1, 0, -1);
    OwingNothing(a, f, Combined(DescriptorBill(size), bill));
  }

  /** Control cycle and child count. */
  method OpenChild(cfg: Config, meter: Meter)
    requires Fair(meter.stats, cfg)
    modifies meter
    ensures Fair(meter.stats, cfg) && Owing(old(meter.stats), meter.stats, FREE, -2, 1)
  {
    ghost var before := meter.stats;
    meter.Spend(cfg, ControlPhase);
    ghost var now := meter.stats;
    meter.StartChild(cfg);
    OwingNothing(before, now, FREE);
    OwingAfter(before, now, meter.stats, FREE, 0, 0, -2, 1);
  }

  method RunChildL2(e: L2, cursor: nat, g: Guard, ghost step: Step, ghost safe: Check, ghost work: Billing)
    returns (ok: bool, size: nat)
    requires e.Valid() && cursor <= g.end
    requires Steps(step, g) && Checks(safe, e.config, g) && safe(e.memory, cursor) && Works(work, e.config, g)
    modifies e`memory, e.meter, e.lanes
    ensures e.Valid() && SameGuarded(g, old(e.memory), e.memory)
    ensures ok ==> cursor + size <= g.end && step(old(e.memory), cursor) == Some(Moved(e.memory, size))
    ensures !ok ==> step(old(e.memory), cursor).None? && StopsAt(g, old(e.memory), cursor, e.memory)
    ensures ok ==> Charged(old(e.meter.stats), e.meter.stats, work(old(e.memory), cursor))
  {
    ghost var m, a := e.memory, e.meter.stats;
    assert Considered(m, cursor);
    OpenChild(e.config, e.meter);
    ghost var b := e.meter.stats;
    var d := CheckChildL2(e.config, e.memory, cursor, g, e.meter);
    if d.None? {
      assert step(m, cursor).None?;
      return false, 0;
    }
    ghost var c := e.meter.stats;
    ChildFits(g, m, cursor);
    ok := e.Primitive(d.value.command);
    ChildKeepsGuard(g, m, cursor, e.memory);
    size := d.value.size;
    if ok {
      CloseChild(e.config, e.meter, a, b, c, size, CommandBill(d.value.command, e.config));
    }
  }

  /** Drain cycle and barrier. */
  method CloseChild(cfg: Config, meter: Meter, ghost a: Stats, ghost b: Stats, ghost c: Stats, ghost size: nat,
                    ghost bill: Bill)
    requires Fair(meter.stats, cfg) && Owing(a, b, FREE, -2, 1) && Owing(b, c, DescriptorBill(size), 2, 0)
    requires Charged(c, meter.stats, bill)
    modifies meter
    ensures Fair(meter.stats, cfg) && Charged(a, meter.stats, Combined(DescriptorBill(size), bill))
  {
    ghost var d := meter.stats;
    meter.Spend(cfg, DrainPhase);
    ghost var e := meter.stats;
    meter.EndChild(cfg);
    ChildCharge(a, b, c, d, e, meter.stats, size, bill);
  }

  /** What is still to come of a batch: how it ends, whether it stays away from the registers, and
      its work. */
  datatype Outlook = Outlook(run: Run, safe: bool, work: Bill)

  ghost function OutlookOf(step: Step, safe: Check, work: Billing, m: Memory, cursor: nat, i: nat, count: nat)
    : Outlook
  {
    Outlook(RunAll(step, m, cursor, i, count), RunSafe(step, safe, m, cursor, i, count),
            WorkAll(step, work, m, cursor, i, count))
  }

  type Future = (Memory, nat, nat) -> Outlook

  ghost predicate Foreseen(m: Memory, cursor: nat, i: nat) { true }

  /** `future` is the outlook at every point of the batch. */
  ghost predicate Foresees(future: Future, step: Step, safe: Check, work: Billing, count: nat) {
    forall m, cursor, i {:trigger Foreseen(m, cursor, i)} ::
      Foreseen(m, cursor, i) ==> future(m, cursor, i) == OutlookOf(step, safe, work, m, cursor, i, count)
  }

  /** A child that completes. */
  lemma OutlookStep(future: Future, step: Step, safe: Check, work: Billing, m: Memory, cursor: nat, i: nat, count: nat,
                    next: Memory, size: nat)
    requires Foresees(future, step, safe, work, count) && i < count && future(m, cursor, i).safe
    requires step(m, cursor) == Some(Moved(next, size))
    ensures future(next, cursor + size, i + 1).run == future(m, cursor, i).run
    ensures future(next, cursor + size, i + 1).safe
    ensures Combined(work(m, cursor), future(next, cursor + size, i + 1).work) == future(m, cursor, i).work
  {
    assert Foreseen(m, cursor, i) && Foreseen(next, cursor + size, i + 1);
  }

  lemma OutlookHere(future: Future, step: Step, safe: Check, work: Billing, m: Memory, cursor: nat, i: nat, count: nat)
    requires Foresees(future, step, safe, work, count) && i < count && future(m, cursor, i).safe
    ensures safe(m, cursor)
    ensures step(m, cursor).None? ==> future(m, cursor, i).run == Stopped(i, m, cursor)
  {
    assert Foreseen(m, cursor, i);
  }

  lemma OutlookEnd(future: Future, step: Step, safe: Check, work: Billing, m: Memory, cursor: nat, count: nat)
    requires Foresees(future, step, safe, work, count)
    ensures future(m, cursor, count).run == Finished(m, cursor) && future(m, cursor, count).work == FREE
  {
    assert Foreseen(m, cursor, count);
  }

  /** Runs the next child; on success the outlook moves on. */
  method StepChildL2(e: L2, cursor: nat, g: Guard, index: nat, count: nat, ghost step: Step, ghost safe: Check,
                     ghost work: Billing, ghost future: Future, ghost before: Stats, ghost done: Bill)
    returns (ok: bool, size: nat, ghost did: Bill)
    requires e.Valid() && cursor <= g.end
    requires Steps(step, g) && Checks(safe, e.config, g) && Works(work, e.config, g) && index < count
    requires Foresees(future, step, safe, work, count) && future(e.memory, cursor, index).safe
    requires Charged(before, e.meter.stats, done)
    modifies e`memory, e.meter, e.lanes
    ensures e.Valid() && SameGuarded(g, old(e.memory), e.memory)
    ensures !ok ==> future(old(e.memory), cursor, index).run == Stopped(index, old(e.memory), cursor)
                    && StopsAt(g, old(e.memory), cursor, e.memory)
    ensures ok ==> cursor + size <= g.end && Charged(before, e.meter.stats, did)
    ensures ok ==> future(e.memory, cursor + size, index + 1).run == future(old(e.memory), cursor, index).run
    ensures ok ==> future(e.memory, cursor + size, index + 1).safe
    ensures ok ==> Combined(did, future(e.memory, cursor + size, index + 1).work)
                   == Combined(done, future(old(e.memory), cursor, index).work)
  {
    ghost var m, stats := e.memory, e.meter.stats;
    did := done;
    OutlookHere(future, step, safe, work, m, cursor, index, count);
    ok, size := RunChildL2(e, cursor, g, step, safe, work);
    if ok {
      OutlookStep(future, step, safe, work, m, cursor, index, count, e.memory, size);
      ChargeBoth(before, stats, e.meter.stats, done, work(m, cursor));
      CombinedAssociates(done, work(m, cursor), future(e.memory, cursor + size, index + 1).work);
      did := Combined(done, work(m, cursor));
    }
  }

  method RunChildrenL2(e: L2, count: nat, g: Guard, ghost step: Step, ghost safe: Check, ghost work: Billing,
                       ghost future: Future)
    returns (ok: bool, index: nat, cursor: nat)
    requires e.Valid() && g.stream <= g.end
    requires Steps(step, g) && Checks(safe, e.config, g) && Works(work, e.config, g)
    requires Foresees(future, step, safe, work, count) && future(e.memory, g.stream, 0).safe
    modifies e`memory, e.meter, e.lanes
    ensures e.Valid() && SameGuarded(g, old(e.memory), e.memory)
    ensures LoopDone(future(old(e.memory), g.stream, 0).run, g, count, ok, index, cursor, e.memory)
    ensures ok ==> Charged(old(e.meter.stats), e.meter.stats, future(old(e.memory), g.stream, 0).work)
  {
    ghost var m, before, did := e.memory, e.meter.stats, FREE;
    ghost var all := future(m, g.stream, 0);
    ChargeNothing(before, e.config);
    CombinedAssociates(all.work, FREE, FREE);
    cursor, index := g.stream, 0;
    while index < count
      invariant index <= count && cursor <= g.end && SameGuarded(g, m, e.memory) && e.Valid()
      invariant future(e.memory, cursor, index).run == all.run && future(e.memory, cursor, index).safe
      invariant Charged(before, e.meter.stats, did)
      invariant Combined(did, future(e.memory, cursor, index).work) == all.work
    {
      ghost var now := e.memory;
      var size;
      ok, size, did := StepChildL2(e, cursor, g, index, count, step, safe, work, future, before, did);
      GuardTransitive(g, m, now, e.memory);
      if !ok {
        return;
      }
      cursor, index := cursor + size, index + 1;
    }
    OutlookEnd(future, step, safe, work, e.memory, cursor, count);
    CombinedAssociates(did, FREE, FREE);
    ok := true;
  }

  ghost function FutureOf(step: Step, safe: Check, work: Billing, count: nat): Future {
    (m: Memory, cursor: nat, i: nat) => OutlookOf(step, safe, work, m, cursor, i, count)
  }

  /** The descriptor bytes of all children are the stream bytes they took. */
  lemma {:induction false} WorkDescriptors(step: Step, work: Billing, m: Memory, cursor: nat, i: nat, count: nat)
    requires i <= count
    requires forall m, cursor {:trigger Considered(m, cursor)} :: Considered(m, cursor) && step(m, cursor).Some? ==>
               work(m, cursor).descriptor == step(m, cursor).value.size
    ensures var run := RunAll(step, m, cursor, i, count);
            run.Finished? ==> WorkAll(step, work, m, cursor, i, count).descriptor == run.cursor - cursor
    decreases count - i
  {
    if i < count && step(m, cursor).Some? {
      assert Considered(m, cursor);
      var moved := step(m, cursor).value;
      WorkDescriptors(step, work, moved.memory, cursor + moved.size, i + 1, count);
    }
  }

  /** The engine may touch the descriptor and the record of a batch that is not refused at once, and
      what its completed children touch. */
  ghost predicate BatchAvoids(cfg: Config, c: Command, descriptor: nat, m: Memory)
    requires c.Batch?
  {
    var g := GuardOf(c, descriptor);
    !Conflicts(c, descriptor) ==>
      && Allowed(cfg, descriptor, 32) && (Writable(m, c.result, 8) ==> Allowed(cfg, c.result, 8))
      && RunSafe(StepOf(g), SafeOf(cfg, g), m, c.children, 0, c.count)
  }

  /** The work of a completed batch: its children and its completion record. */
  ghost function BatchBill(cfg: Config, c: Command, descriptor: nat, m: Memory): Bill
    requires cfg.Valid() && c.Batch?
  {
    var g := GuardOf(c, descriptor);
    Combined(WorkAll(StepOf(g), BillingOf(cfg, g), m, c.children, 0, c.count), ResultBill(8))
  }

  method ExecuteBatchL2(e: L2, c: Command, descriptor: nat) returns (ok: bool)
    requires e.Valid() && c.Batch? && BatchAvoids(e.config, c, descriptor, e.memory)
    modifies e`memory, e.meter, e.lanes
    ensures e.Valid() && BatchDone(c, descriptor, old(e.memory), ok, e.memory)
    ensures ok ==> Charged(old(e.meter.stats), e.meter.stats, BatchBill(e.config, c, descriptor, old(e.memory)))
  {
    if Conflicts(c, descriptor) {
      return false;
    }
    ghost var m, before := e.memory, e.meter.stats;
    var g := GuardOf(c, descriptor);
    StepOfSteps(g);
    ghost var work := BillingOf(e.config, g);
    ghost var step, safe := StepOf(g), SafeOf(e.config, g);
    ghost var future := FutureOf(step, safe, work, c.count);
    var ran, index, cursor := RunChildrenL2(e, c.count, g, step, safe, work, future);
    var done := ran && cursor == g.end;
    ghost var now := e.meter.stats;
    ok := RecordL2(e, c, descriptor, m, ran, index, cursor, done);
    if ok {
      ChargeBoth(before, now, e.meter.stats, WorkAll(StepOf(g), work, m, c.children, 0, c.count), ResultBill(8));
    }
  }

  /** Drains, then writes the completion record. */
  method RecordL2(e: L2, c: Command, descriptor: nat, ghost m: Memory, ghost ran: bool, index: nat,
                  ghost cursor: nat, done: bool)
    returns (ok: bool)
    requires e.Valid() && c.Batch? && (Writable(m, c.result, 8) ==> Allowed(e.config, c.result, 8))
             && !Conflicts(c, descriptor)
    requires SameGuarded(GuardOf(c, descriptor), m, e.memory)
    requires var g := GuardOf(c, descriptor);
             LoopDone(Children(m, c.children, g, c.count), g, c.count, ran, index, cursor, e.memory)
    requires done == (ran && cursor == GuardOf(c, descriptor).end)
    modifies e`memory, e.meter
    ensures e.Valid() && BatchDone(c, descriptor, m, ok, e.memory)
    ensures ok ==> Charged(old(e.meter.stats), e.meter.stats, ResultBill(8))
  {
    ghost var before := e.meter.stats;
    e.meter.Spend(e.config, DrainPhase);
    ghost var drained := e.meter.stats;
    var bytes := Completion(index, if done then UINT32_MAX else index);
    ghost var now := e.memory;
    var written, after;
    ghost var part;
    written, after, part := TransferWrite(e.config, e.memory, c.result, bytes, e.meter);
    e.memory := after;
    assert bytes[..8] == bytes;
    BatchEnds(c, descriptor, m, ran, index, cursor, now, done, written, after);
    ok := written && done;
    if ok {
      FreeCharge(before, drained, e.meter.stats, ResultBill(8));
    }
  }

  /** No access that a submission needs for its effect meets the engine's registers. */
  ghost predicate DeviceAvoids(cfg: Config, m: Memory, descriptor: nat) {
    match Fetch(m, descriptor, 64)
    case None => true
    case Some(d) =>
      if d.command.Batch? then BatchAvoids(cfg, d.command, descriptor, m)
      else Accepted(Lower(d.command), m) ==> Allowed(cfg, descriptor, d.size) && Avoids(cfg, Lower(d.command))
  }

  /** A submission whose descriptor the engine may not touch fails on every device. */
  lemma Unfetched(cfg: Config, m: Memory, descriptor: nat)
    requires DeviceAvoids(cfg, m, descriptor) && Fetches(cfg, m, descriptor, 64, None)
    ensures DeviceDone(m, descriptor, false, m)
  {
    if Fetch(m, descriptor, 64).Some? && Fetch(m, descriptor, 64).value.command.Batch? {
      BatchSize(m, descriptor);
    }
  }

  /** The work of a completed submission: its descriptor and what it asks for. */
  ghost function SubmissionBill(cfg: Config, m: Memory, descriptor: nat): Bill
    requires cfg.Valid()
  {
    match Fetch(m, descriptor, 64)
    case None => FREE
    case Some(d) =>
      Combined(DescriptorBill(d.size), SubmissionWork(cfg, m, descriptor, d))
  }

  lemma BatchSize(m: Memory, descriptor: nat)
    requires Fetch(m, descriptor, 64).Some? && Fetch(m, descriptor, 64).value.command.Batch?
    ensures Fetch(m, descriptor, 64).value.size == 32
  {
    var size := WireSize(ByteAt(m, descriptor), ByteAt(m, descriptor + 1)).value;
    assert Fetch(m, descriptor, 64) == Decode(Bytes(m, descriptor, size));
  }

  lemma ChildWorkSize(cfg: Config, g: Guard, m: Memory, cursor: nat)
    requires cfg.Valid() && ChildStep(g, m, cursor).Some?
    ensures ChildWork(cfg, g, m, cursor).descriptor == ChildStep(g, m, cursor).value.size
  {
  }

  lemma BatchStream(cfg: Config, c: Command, descriptor: nat, m: Memory)
    requires cfg.Valid() && c.Batch?
    requires Children(m, c.children, GuardOf(c, descriptor), c.count).Finished?
    ensures BatchBill(cfg, c, descriptor, m).descriptor
            == Children(m, c.children, GuardOf(c, descriptor), c.count).cursor - c.children
  {
    var g := GuardOf(c, descriptor);
    var step, work := StepOf(g), BillingOf(cfg, g);
    forall m, cursor {:trigger Considered(m, cursor)} | Considered(m, cursor) && step(m, cursor).Some?
      ensures work(m, cursor).descriptor == step(m, cursor).value.size
    {
      ChildWorkSize(cfg, g, m, cursor);
    }
    WorkDescriptors(step, work, m, c.children, 0, c.count);
  }

  /** A completed batch fetched its own descriptor and its whole child stream. */
  lemma BatchDescriptors(cfg: Config, m: Memory, descriptor: nat, after: Memory)
    requires cfg.Valid() && DeviceDone(m, descriptor, true, after)
    requires Fetch(m, descriptor, 64).Some? && Fetch(m, descriptor, 64).value.command.Batch?
    ensures SubmissionBill(cfg, m, descriptor).descriptor == 32 + Fetch(m, descriptor, 64).value.command.childBytes
  {
    BatchSize(m, descriptor);
    BatchStream(cfg, Fetch(m, descriptor, 64).value.command, descriptor, m);
  }

  /** The tiled engine. */
  method ExecuteL2(e: L2, descriptor: nat) returns (ok: bool)
    requires e.Valid() && DeviceAvoids(e.config, e.memory, descriptor)
    modifies e`memory, e.meter, e.lanes
    ensures e.Valid() && DeviceDone(old(e.memory), descriptor, ok, e.memory)
    ensures ok ==> Charged(old(e.meter.stats), e.meter.stats, SubmissionBill(e.config, old(e.memory), descriptor))
  {
    ghost var a := e.meter.stats;
    OpenSubmission(e.config, e.meter);
    ghost var b := e.meter.stats;
    var d := FetchL2(e.config, e.memory, descriptor, 64, e.meter);
    if d.None? {
      Unfetched(e.config, e.memory, descriptor);
      e.meter.Spend(e.config, DrainPhase);
      return false;
    }
    FetchedSize(e.memory, descriptor, 64);
    ghost var c := e.meter.stats;
    ghost var bill := SubmissionWork(e.config, e.memory, descriptor, d.value);
    if d.value.command.Batch? {
      ok := ExecuteBatchL2(e, d.value.command, descriptor);
    } else {
      ok := e.Primitive(d.value.command);
    }
    ghost var f := e.meter.stats;
    e.meter.Spend(e.config, DrainPhase);
    if ok {
      SubmissionCharge(a, b, c, f, e.meter.stats, d.value.size, bill);
    }
  }

  ghost function SubmissionWork(cfg: Config, m: Memory, descriptor: nat, d: Decoded): Bill
    requires cfg.Valid()
  {
    if d.command.Batch? then BatchBill(cfg, d.command, descriptor, m) else CommandBill(d.command, cfg)
  }

  /** Submission count and control cycle. */
  method OpenSubmission(cfg: Config, meter: Meter)
    requires Fair(meter.stats, cfg)
    modifies meter
    ensures Fair(meter.stats, cfg) && Owing(old(meter.stats), meter.stats, FREE, -2, 0)
  {
    ghost var before := meter.stats;
    meter.Submit(cfg);
    ghost var now := meter.stats;
    meter.Spend(cfg, ControlPhase);
    OwingFree(before, now, meter.stats, FREE, -2, 0);
  }

  lemma SubmissionCharge(a: Stats, b: Stats, c: Stats, d: Stats, e: Stats, size: nat, bill: Bill)
    requires Owing(a, b, FREE, -2, 0) && Owing(b, c, DescriptorBill(size), 2, 0) && Charged(c, d, bill)
    requires Charged(d, e, FREE)
    ensures Charged(a, e, Combined(DescriptorBill(size), bill))
  {
    OwingAfter(a, b, c, DescriptorBill(size), -2, 0, 2, 0);
    OwingNothing(a, c, DescriptorBill(size));
    ChargeBoth(a, c, d, DescriptorBill(size), bill);
    ChargeFree(a, d, e, Combined(DescriptorBill(size), bill));
  }

  // ------------------------------------------------- memory apart from the registers

  /** The engine may touch every byte of memory but the one at address zero. */
  ghost predicate MemoryAllowed(cfg: Config, m: Memory) {
    forall x {:trigger x in m.cells} :: x in m.cells && x > 0 ==> ByteAllowed(cfg, x)
  }

  lemma ReadableAllowed(cfg: Config, m: Memory, address: nat, n: nat)
    requires MemoryAllowed(cfg, m) && address > 0 && Readable(m, address, n)
    ensures Allowed(cfg, address, n)
  {
    forall x {:trigger ByteAllowed(cfg, x)} | address <= x < address + n ensures ByteAllowed(cfg, x) {
      assert x in m.cells;
    }
  }

  lemma OperandReadable(cfg: Config, p: Shape, m: Memory, op: Operand)
    requires MemoryAllowed(cfg, m) && Accepted(p, m) && op.base > 0
    requires op == p.first || op == p.second || p.third == Some(op)
    ensures OperandAllowed(cfg, p, op)
  {
    forall o, i {:trigger Semantics.Place(op, o, i)} | 0 <= o < p.rows && 0 <= i < p.columns
      ensures Allowed(cfg, Semantics.Place(op, o, i), 4)
    {
      AcceptedRowsPrefix(p, m, o + 1, p.rows);
      AcceptedPrefix(p, m, o, i + 1, p.columns);
      assert CostAt(m, Semantics.Place(op, o, i)).Some?;
      ReadableAllowed(cfg, m, Semantics.Place(op, o, i), 4);
    }
  }

  lemma ValidBases(c: Command)
    requires Validate(c) == Fine && !c.Batch?
    ensures var p := Lower(c);
            p.first.base > 0 && p.second.base > 0 && (p.third.Some? ==> p.third.value.base > 0) && p.base > 0
  {
  }

  /** A command that completes touches only memory. */
  lemma AcceptedAvoids(cfg: Config, c: Command, m: Memory)
    requires MemoryAllowed(cfg, m) && Validate(c) == Fine && !c.Batch? && Accepted(Lower(c), m)
    ensures Avoids(cfg, Lower(c))
  {
    var p := Lower(c);
    ValidBases(c);
    OperandReadable(cfg, p, m, p.first);
    OperandReadable(cfg, p, m, p.second);
    if p.third.Some? {
      OperandReadable(cfg, p, m, p.third.value);
    }
    forall o {:trigger Slot(p, o)} | 0 <= o < p.rows ensures Allowed(cfg, Slot(p, o), OutWidth(p)) {
      AcceptedRowsPrefix(p, m, o + 1, p.rows);
      ReadableAllowed(cfg, m, Slot(p, o), OutWidth(p));
    }
  }

  lemma ChildAllowed(cfg: Config, g: Guard, m: Memory, cursor: nat)
    requires MemoryAllowed(cfg, m)
    ensures ChildAvoids(cfg, g, m, cursor)
    ensures ChildStep(g, m, cursor).Some? ==> MemoryAllowed(cfg, ChildStep(g, m, cursor).value.memory)
  {
    if ChildStep(g, m, cursor).Some? {
      FetchParts(m, cursor, g.end - cursor);
      FetchedSize(m, cursor, g.end - cursor);
      var d := NextChild(m, cursor, g).value;
      ReadableAllowed(cfg, m, cursor, d.size);
      AcceptedAvoids(cfg, d.command, m);
      var next := ChildStep(g, m, cursor).value.memory;
      forall x {:trigger x in next.cells} | x in next.cells && x > 0 ensures ByteAllowed(cfg, x) {
        assert x in m.cells;
      }
    }
  }

  /** The check holds at every memory apart from the registers, and steps stay there. */
  ghost predicate KeepsApart(cfg: Config, step: Step, safe: Check) {
    forall m, cursor {:trigger Considered(m, cursor)} :: Considered(m, cursor) && MemoryAllowed(cfg, m) ==>
      safe(m, cursor) && (step(m, cursor).Some? ==> MemoryAllowed(cfg, step(m, cursor).value.memory))
  }

  lemma {:induction false} RunAllowed(cfg: Config, step: Step, safe: Check, m: Memory, cursor: nat, i: nat, count: nat)
    requires KeepsApart(cfg, step, safe) && MemoryAllowed(cfg, m)
    ensures RunSafe(step, safe, m, cursor, i, count)
    decreases count - i
  {
    if i < count {
      assert Considered(m, cursor);
      if step(m, cursor).Some? {
        RunAllowed(cfg, step, safe, step(m, cursor).value.memory, cursor + step(m, cursor).value.size, i + 1, count);
      }
    }
  }

  lemma StepsApart(cfg: Config, g: Guard)
    ensures KeepsApart(cfg, StepOf(g), SafeOf(cfg, g))
  {
    var step, safe := StepOf(g), SafeOf(cfg, g);
    forall m, cursor {:trigger Considered(m, cursor)} | Considered(m, cursor) && MemoryAllowed(cfg, m)
      ensures safe(m, cursor) && (step(m, cursor).Some? ==> MemoryAllowed(cfg, step(m, cursor).value.memory))
    {
      ChildAllowed(cfg, g, m, cursor);
    }
  }

  /** On memory apart from the engine's registers, every submission avoids them. */
  lemma MemoryAvoids(cfg: Config, m: Memory, descriptor: nat)
    requires MemoryAllowed(cfg, m)
    ensures DeviceAvoids(cfg, m, descriptor)
  {
    if Fetch(m, descriptor, 64).Some? {
      var d := Fetch(m, descriptor, 64).value;
      FetchParts(m, descriptor, 64);
      FetchedSize(m, descriptor, 64);
      ReadableAllowed(cfg, m, descriptor, d.size);
      if d.command.Batch? {
        BatchSize(m, descriptor);
        var g := GuardOf(d.command, descriptor);
        StepsApart(cfg, g);
        RunAllowed(cfg, StepOf(g), SafeOf(cfg, g), m, d.command.children, 0, d.command.count);
        if Writable(m, d.command.result, 8) {
          ReadableAllowed(cfg, m, d.command.result, 8);
        }
      } else if Accepted(Lower(d.command), m) {
        AcceptedAvoids(cfg, d.command, m);
      }
    }
  }

  // ------------------------------------------------------------------ agreement

  /** Bytes that a failed submission leaves open: the outputs of the command that failed, and a
      completion record that cannot be written. */
  ghost predicate Open(m: Memory, descriptor: nat, x: int) {
    match Fetch(m, descriptor, 64)
    case None => false
    case Some(d) =>
      if d.command.Batch? then BatchOpen(d.command, descriptor, m, x) else Touched(Lower(d.command), x)
  }

  lemma LeavesAt(m: Memory, descriptor: nat, ok: bool, after: Memory, ok': bool, after': Memory, x: int)
    requires DeviceDone(m, descriptor, ok, after) && DeviceDone(m, descriptor, ok', after')
    requires !Open(m, descriptor, x)
    ensures ByteAt(after, x) == ByteAt(after', x)
  {
    if Fetch(m, descriptor, 64).Some? {
      var c := Fetch(m, descriptor, 64).value.command;
      if c.Batch? {
        BatchLeavesAt(c, descriptor, m, ok, after, x);
        BatchLeavesAt(c, descriptor, m, ok', after', x);
      }
    }
  }

  /** The rules leave no freedom in the status, in the memory on success, or after a failure in any
      byte but the open ones: results of children completed before the failing one and a writable
      completion record are the same. */
  lemma DevicesAgree(m: Memory, descriptor: nat, ok: bool, after: Memory, ok': bool, after': Memory)
    requires DeviceDone(m, descriptor, ok, after) && DeviceDone(m, descriptor, ok', after')
    ensures ok == ok' && (ok ==> after == after')
    ensures forall x {:trigger Open(m, descriptor, x)} ::
              !Open(m, descriptor, x) ==> ByteAt(after, x) == ByteAt(after', x)
  {
    forall x {:trigger Open(m, descriptor, x)} | !Open(m, descriptor, x)
      ensures ByteAt(after, x) == ByteAt(after', x)
    {
      LeavesAt(m, descriptor, ok, after, ok', after', x);
    }
  }

  /** The tiled engine refines the functional executor: on the same memory and descriptor, under
      every valid configuration, both report the same status, on success leave the same memory, and
      on failure differ at most in the open bytes. */
  method RunBoth(cfg: Config, m: Memory, descriptor: nat)
    returns (done0: bool, after0: Memory, done2: bool, after2: Memory)
    requires cfg.Valid() && DeviceAvoids(cfg, m, descriptor)
    ensures done0 == done2 && (done0 ==> after0 == after2)
    ensures forall x {:trigger Open(m, descriptor, x)} ::
              !Open(m, descriptor, x) ==> ByteAt(after0, x) == ByteAt(after2, x)
  {
    var l0 := new L0(m);
    var l2 := new L2(cfg, m);
    done0 := ExecuteL0(l0, descriptor);
    done2 := ExecuteL2(l2, descriptor);
    after0, after2 := l0.memory, l2.memory;
    DevicesAgree(m, descriptor, done0, after0, done2, after2);
  }
}
