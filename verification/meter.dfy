/** The L2 engine's counters (accelerator/src/l2_accelerator.cpp: tick, transfer, add, reduce):
    cycles by phase, memory requests and bytes by role, lane groups and merges. Counters are
    unbounded here. */
module Meters {
  import opened Basics
  import opened Costs
  import opened GuestMemory

  const MMIO_SIZE: nat := 0x1000

  datatype Config = Config(lanes: nat, memBytes: nat, tm: nat, tn: nat, mmioBase: nat,
                           memoryLatency: nat, acceptanceDelay: nat) {
    predicate Valid() {
      && 0 < lanes <= UINT16_MAX && 0 < memBytes <= UINT16_MAX
      && 0 < tm <= UINT16_MAX && 0 < tn <= UINT16_MAX
      && 0 < memoryLatency <= UINT16_MAX && acceptanceDelay <= UINT16_MAX
      && mmioBase <= UINT64_MAX - MMIO_SIZE
    }

    /** Cycles a request waits. */
    function Wait(): nat { memoryLatency + acceptanceDelay }
  }

  datatype Phase =
    | DescriptorPhase | DecodePhase | ProtectionPhase | OperandPhase | Add1Phase | Add2Phase
    | TreePhase | MergePhase | WritebackPhase | DrainPhase | MemoryWaitPhase | ControlPhase

  const PHASES: nat := 12

  function PhaseIndex(phase: Phase): (i: nat)
    ensures i < PHASES
  {
    match phase
    case DescriptorPhase => 0
    case DecodePhase => 1
    case ProtectionPhase => 2
    case OperandPhase => 3
    case Add1Phase => 4
    case Add2Phase => 5
    case TreePhase => 6
    case MergePhase => 7
    case WritebackPhase => 8
    case DrainPhase => 9
    case MemoryWaitPhase => 10
    case ControlPhase => 11
  }

  /** What a transfer is for; it decides which counters and which phase it is charged to. */
  datatype Role = ForDescriptor | ForOperand | ForResult {
    function Phase(): Phase {
      match this
      case ForDescriptor => DescriptorPhase
      case ForOperand => OperandPhase
      case ForResult => WritebackPhase
    }
  }

  datatype Stats = Stats(
    cycles: nat, phases: seq<nat>,
    submissions: nat, children: nat, childBarriers: nat,
    laneGroups: nat, activeElements: nat, laneSlots: nat, tailSlots: nat, stateUpdates: nat,
    descriptorBytes: nat, operandBytes: nat, resultBytes: nat, transferredBytes: nat,
    descriptorRequests: nat, operandRequests: nat, resultRequests: nat, requests: nat,
    headerRequests: nat, bodyRequests: nat, protectionElements: nat)
  {
    function In(phase: Phase): nat
      requires |phases| == PHASES
    {
      phases[PhaseIndex(phase)]
    }
  }

  const NO_STATS := Stats(0, seq(PHASES, i => 0), 0, 0, 0, 0, 0, 0, 0, 0, 0, 0, 0, 0, 0, 0, 0, 0, 0, 0, 0)

  lemma TotalRaised(counts: seq<nat>, i: nat, n: nat)
    requires i < |counts|
    ensures Total(counts[i := counts[i] + n]) == Total(counts) + n
  {
    TotalUpdate(counts, i, counts[i] + n);
  }

  // ------------------------------------------------------------------- events

  function Ticked(s: Stats, phase: Phase, n: nat): (r: Stats)
    requires |s.phases| == PHASES
    ensures |r.phases| == PHASES
  {
    s.(cycles := s.cycles + n, phases := s.phases[PhaseIndex(phase) := s.phases[PhaseIndex(phase)] + n])
  }

  /** The bytes a transfer is asked to move. */
  function Paid(s: Stats, role: Role, bytes: nat): Stats {
    match role
    case ForDescriptor => s.(descriptorBytes := s.descriptorBytes + bytes)
    case ForOperand => s.(operandBytes := s.operandBytes + bytes)
    case ForResult => s.(resultBytes := s.resultBytes + bytes)
  }

  function Counted(s: Stats, role: Role, bytes: nat): Stats {
    var t := s.(requests := s.requests + 1, transferredBytes := s.transferredBytes + bytes);
    match role
    case ForDescriptor => t.(descriptorRequests := s.descriptorRequests + 1)
    case ForOperand => t.(operandRequests := s.operandRequests + 1)
    case ForResult => t.(resultRequests := s.resultRequests + 1)
  }

  /** One request: wait for acceptance, count it, issue, wait for memory, retire. */
  function Requested(s: Stats, c: Config, role: Role, bytes: nat): (r: Stats)
    requires |s.phases| == PHASES
    ensures |r.phases| == PHASES
  {
    var accepted := Counted(Ticked(s, MemoryWaitPhase, c.acceptanceDelay), role, bytes);
    Ticked(Ticked(Ticked(accepted, role.Phase(), 1), MemoryWaitPhase, c.memoryLatency), role.Phase(), 1)
  }

  /** One pass of checked additions over a lane group. */
  function Passed(s: Stats, c: Config, count: nat, phase: Phase): Stats
    requires |s.phases| == PHASES && count <= c.lanes
  {
    Ticked(s.(laneGroups := s.laneGroups + 1, activeElements := s.activeElements + count,
              laneSlots := s.laneSlots + c.lanes, tailSlots := s.tailSlots + (c.lanes - count)),
           phase, 1)
  }

  /** Registered levels of the tree over the full lane width. */
  function Levels(width: nat): nat
    decreases width
  {
    if width <= 1 then 0 else 1 + Levels((width + 1) / 2)
  }

  function Merged(s: Stats, c: Config): Stats
    requires |s.phases| == PHASES
  {
    var t := Ticked(Ticked(s, TreePhase, Levels(c.lanes)), MergePhase, 1);
    t.(stateUpdates := s.stateUpdates + 1)
  }

  // --------------------------------------------------------------- the balance

  /** The counters agree with each other at every moment between two requests. */
  ghost predicate Balanced(s: Stats, c: Config) {
    && |s.phases| == PHASES && s.cycles == Total(s.phases)
    && s.requests == s.descriptorRequests + s.operandRequests + s.resultRequests
    && s.In(DescriptorPhase) == 2 * s.descriptorRequests
    && s.In(OperandPhase) == 2 * s.operandRequests
    && s.In(WritebackPhase) == 2 * s.resultRequests
    && s.In(MemoryWaitPhase) == Offset(s.requests, c.Wait())
    && s.In(Add1Phase) + s.In(Add2Phase) == s.laneGroups
    && s.In(TreePhase) == Offset(s.stateUpdates, Levels(c.lanes)) && s.In(MergePhase) == s.stateUpdates
    && s.In(ProtectionPhase) == s.protectionElements
    && s.laneSlots == Offset(s.laneGroups, c.lanes) && s.activeElements + s.tailSlots == s.laneSlots
  }

  /** What a completed command leaves at zero: bytes not moved, descriptor requests that are
      neither header nor body, decodes not matched by a command, children not drained. */
  datatype Gaps = Gaps(bytes: int, requests: int, decodes: int, barriers: int)

  function GapsOf(s: Stats): Gaps
    requires |s.phases| == PHASES
  {
    Gaps(s.descriptorBytes + s.operandBytes + s.resultBytes - s.transferredBytes,
         s.descriptorRequests - s.headerRequests - s.bodyRequests,
         s.In(DecodePhase) - 2 * (s.submissions + s.children),
         s.children - s.childBarriers)
  }

  /** Balanced, and no more bytes moved than were asked for. */
  ghost predicate FairNow(s: Stats, c: Config) {
    Balanced(s, c) && GapsOf(s).bytes >= 0
  }

  /** Marks the statistics whose counters a proof looks into: `Fair`, `Charged` and `Moving` are
      carried along unopened by all other proofs. */
  ghost predicate Audited(s: Stats) { true }

  ghost predicate Fair(s: Stats, c: Config) {
    forall t {:trigger Audited(t)} :: Audited(t) && t == s ==> FairNow(t, c)
  }

  lemma NoStatsFair(c: Config)
    ensures Fair(NO_STATS, c)
  {
    TotalPhases(NO_STATS.phases);
  }

  lemma TickFacts(s: Stats, phase: Phase, n: nat)
    requires |s.phases| == PHASES
    ensures Total(Ticked(s, phase, n).phases) == Total(s.phases) + n
    ensures forall p: Phase {:trigger Ticked(s, phase, n).In(p)} ::
              Ticked(s, phase, n).In(p) == if p == phase then s.In(p) + n else s.In(p)
  {
    TotalRaised(s.phases, PhaseIndex(phase), n);
  }

  /** Only phases that no other counter explains may be ticked on their own. */
  lemma TickKeeps(s: Stats, c: Config, phase: Phase, n: nat)
    requires Balanced(s, c) && (phase.DecodePhase? || phase.DrainPhase? || phase.ControlPhase?)
    ensures Balanced(Ticked(s, phase, n), c)
  {
    TickFacts(s, phase, n);
  }

  lemma RequestFacts(s: Stats, c: Config, role: Role, bytes: nat)
    requires |s.phases| == PHASES
    ensures var r := Requested(s, c, role, bytes);
            && r.cycles == s.cycles + c.Wait() + 2 && Total(r.phases) == Total(s.phases) + c.Wait() + 2
            && r.In(MemoryWaitPhase) == s.In(MemoryWaitPhase) + c.Wait()
            && r.In(role.Phase()) == s.In(role.Phase()) + 2
            && forall p: Phase {:trigger r.In(p)} :: p != MemoryWaitPhase && p != role.Phase() ==> r.In(p) == s.In(p)
  {
    var a := Counted(Ticked(s, MemoryWaitPhase, c.acceptanceDelay), role, bytes);
    var b := Ticked(a, role.Phase(), 1);
    var d := Ticked(b, MemoryWaitPhase, c.memoryLatency);
    TickFacts(s, MemoryWaitPhase, c.acceptanceDelay);
    TickFacts(a, role.Phase(), 1);
    TickFacts(b, MemoryWaitPhase, c.memoryLatency);
    TickFacts(d, role.Phase(), 1);
  }

  lemma RequestBalanced(s: Stats, c: Config, role: Role, bytes: nat)
    requires Balanced(s, c)
    ensures Balanced(Requested(s, c, role, bytes), c)
  {
    RequestFacts(s, c, role, bytes);
  }

  lemma RequestGaps(s: Stats, c: Config, role: Role, bytes: nat)
    requires |s.phases| == PHASES
    ensures var g, h := GapsOf(s), GapsOf(Requested(s, c, role, bytes));
            && h.bytes == g.bytes - bytes && h.decodes == g.decodes && h.barriers == g.barriers
            && h.requests == if role.ForDescriptor? then g.requests + 1 else g.requests
  {
    RequestFacts(s, c, role, bytes);
  }

  lemma PassKeeps(s: Stats, c: Config, count: nat, phase: Phase)
    requires Balanced(s, c) && count <= c.lanes && (phase.Add1Phase? || phase.Add2Phase?)
    ensures Balanced(Passed(s, c, count, phase), c) && GapsOf(Passed(s, c, count, phase)) == GapsOf(s)
  {
    TickFacts(s, phase, 1);
  }

  lemma MergeKeeps(s: Stats, c: Config)
    requires Balanced(s, c)
    ensures Balanced(Merged(s, c), c) && GapsOf(Merged(s, c)) == GapsOf(s)
  {
    TickFacts(s, TreePhase, Levels(c.lanes));
    TickFacts(Ticked(s, TreePhase, Levels(c.lanes)), MergePhase, 1);
  }

  lemma ProtectionKeeps(s: Stats, c: Config)
    requires Balanced(s, c)
    ensures var r := Ticked(s, ProtectionPhase, 1).(protectionElements := s.protectionElements + 1);
            Balanced(r, c) && GapsOf(r) == GapsOf(s)
  {
    TickFacts(s, ProtectionPhase, 1);
  }

  /** Every cycle explained: requests, addition passes, merges with their trees, checks of output
      elements, and the three phases that stand for themselves. */
  lemma CyclesExplained(s: Stats, c: Config)
    requires Fair(s, c)
    ensures |s.phases| == PHASES && s.cycles == Total(s.phases)
    ensures s.In(MemoryWaitPhase) == s.requests * (c.memoryLatency + c.acceptanceDelay)
    ensures s.cycles == s.requests * (2 + c.memoryLatency + c.acceptanceDelay)
                        + s.laneGroups + s.stateUpdates * (Levels(c.lanes) + 1) + s.protectionElements
                        + s.In(DecodePhase) + s.In(DrainPhase) + s.In(ControlPhase)
  {
    assert Audited(s);
    TotalPhases(s.phases);
    OffsetIsProduct(s.requests, c.Wait());
    OffsetIsProduct(s.stateUpdates, Levels(c.lanes));
    assert s.requests * (2 + c.Wait()) == 2 * s.requests + s.requests * c.Wait();
    assert s.stateUpdates * (Levels(c.lanes) + 1) == s.stateUpdates * Levels(c.lanes) + s.stateUpdates;
  }

  lemma TotalPhases(p: seq<nat>)
    requires |p| == PHASES
    ensures Total(p) == p[0] + p[1] + p[2] + p[3] + p[4] + p[5] + p[6] + p[7] + p[8] + p[9] + p[10] + p[11]
  {
    TotalLast(p);
    TotalLast(p[..11]);
    TotalLast(p[..10]);
    TotalLast(p[..9]);
    TotalLast(p[..8]);
    TotalLast(p[..7]);
    TotalLast(p[..6]);
    TotalLast(p[..5]);
    TotalLast(p[..4]);
    TotalLast(p[..3]);
    TotalLast(p[..2]);
    TotalLast(p[..1]);
    assert Total(p[..0]) == 0;
  }

  lemma TotalLast(p: seq<nat>)
    requires |p| > 0
    ensures Total(p) == Total(p[..|p| - 1]) + p[|p| - 1]
    ensures forall k {:trigger p[..k]} :: 0 <= k < |p| ==> p[..|p| - 1][..k] == p[..k]
  {
  }

  /** The tree has as many levels as the base-two logarithm of the lane count, rounded up. */
  lemma {:induction false} LevelsExact(width: nat)
    requires width > 0
    ensures width <= Exp2(Levels(width)) && (width > 1 ==> Exp2(Levels(width) - 1) < width)
    decreases width
  {
    if width > 1 {
      LevelsExact((width + 1) / 2);
    }
  }

  function Exp2(n: nat): (r: nat)
    ensures r > 0
  {
    if n == 0 then 1 else 2 * Exp2(n - 1)
  }

  // ------------------------------------------------------------------- charges

  /** The work of a completed piece: bytes by role, lane groups, merges, lane elements. */
  datatype Bill = Bill(descriptor: nat, operand: nat, result: nat, groups: nat, updates: nat, elements: nat)

  function Combined(x: Bill, y: Bill): Bill {
    Bill(x.descriptor + y.descriptor, x.operand + y.operand, x.result + y.result,
         x.groups + y.groups, x.updates + y.updates, x.elements + y.elements)
  }

  const FREE := Bill(0, 0, 0, 0, 0, 0)

  /** From `a` to `b` exactly this work was added, and nothing was left unfinished. */
  ghost predicate ChargedNow(a: Stats, b: Stats, bill: Bill) {
    && |a.phases| == PHASES && |b.phases| == PHASES && GapsOf(a) == GapsOf(b)
    && b.descriptorBytes == a.descriptorBytes + bill.descriptor
    && b.operandBytes == a.operandBytes + bill.operand
    && b.resultBytes == a.resultBytes + bill.result
    && b.laneGroups == a.laneGroups + bill.groups
    && b.stateUpdates == a.stateUpdates + bill.updates
    && b.activeElements == a.activeElements + bill.elements
  }

  ghost predicate Charged(a: Stats, b: Stats, bill: Bill) {
    forall t {:trigger Audited(t)} :: Audited(t) && t == b ==> ChargedNow(a, t, bill)
  }

  lemma ChargeNothing(s: Stats, c: Config)
    requires Fair(s, c)
    ensures Charged(s, s, FREE)
  {
    assert Audited(s);
  }

  lemma ChargeFree(a: Stats, b: Stats, c: Stats, x: Bill)
    requires Charged(a, b, x) && Charged(b, c, FREE)
    ensures Charged(a, c, x)
  {
    assert Audited(b) && Audited(c);
  }

  lemma FreeCharge(a: Stats, b: Stats, c: Stats, x: Bill)
    requires Charged(a, b, FREE) && Charged(b, c, x)
    ensures Charged(a, c, x)
  {
    assert Audited(b) && Audited(c);
  }

  lemma ChargeBoth(a: Stats, b: Stats, c: Stats, x: Bill, y: Bill)
    requires Charged(a, b, x) && Charged(b, c, y)
    ensures Charged(a, c, Combined(x, y))
  {
    assert Audited(b) && Audited(c);
  }

  /** From `a` to `b` a transfer of `bytes` bytes was asked for and all but `left` were moved. */
  ghost predicate MovingNow(a: Stats, b: Stats, role: Role, bytes: nat, left: nat) {
    && |a.phases| == PHASES && |b.phases| == PHASES
    && GapsOf(b).bytes == GapsOf(a).bytes + left
    && GapsOf(b).decodes == GapsOf(a).decodes && GapsOf(b).barriers == GapsOf(a).barriers
    && GapsOf(b).requests == GapsOf(a).requests + (if role.ForDescriptor? then b.requests - a.requests else 0)
    && b.headerRequests == a.headerRequests && b.bodyRequests == a.bodyRequests
    && b.descriptorBytes == a.descriptorBytes + (if role.ForDescriptor? then bytes else 0)
    && b.operandBytes == a.operandBytes + (if role.ForOperand? then bytes else 0)
    && b.resultBytes == a.resultBytes + (if role.ForResult? then bytes else 0)
    && b.laneGroups == a.laneGroups && b.stateUpdates == a.stateUpdates && b.activeElements == a.activeElements
  }

  ghost predicate Moving(a: Stats, b: Stats, role: Role, bytes: nat, left: nat) {
    forall t {:trigger Audited(t)} :: Audited(t) && t == b ==> MovingNow(a, t, role, bytes, left)
  }

  lemma MovingStart(a: Stats, c: Config, role: Role, bytes: nat)
    requires Fair(a, c)
    ensures Moving(a, Paid(a, role, bytes), role, bytes, bytes) && Fair(Paid(a, role, bytes), c)
  {
    assert Audited(a);
  }

  lemma MovingStep(a: Stats, b: Stats, c: Config, role: Role, bytes: nat, left: nat, size: nat)
    requires Moving(a, b, role, bytes, left) && size <= left && Fair(b, c) && Fair(a, c)
    requires |b.phases| == PHASES
    ensures Moving(a, Requested(b, c, role, size), role, bytes, left - size)
    ensures Fair(Requested(b, c, role, size), c)
  {
    assert Audited(a) && Audited(b);
    RequestBalanced(b, c, role, size);
    RequestGaps(b, c, role, size);
  }

  function OperandBill(bytes: nat): Bill { Bill(0, bytes, 0, 0, 0, 0) }

  function ResultBill(bytes: nat): Bill { Bill(0, 0, bytes, 0, 0, 0) }

  /** One addition pass over a lane group. */
  function PassBill(count: nat): Bill { Bill(0, 0, 0, 1, 0, count) }

  function MergeBill(): Bill { Bill(0, 0, 0, 0, 1, 0) }

  /** One or two addition passes over some groups of columns. */
  function AddBill(three: bool, columns: nat, groups: nat): Bill {
    if three then Bill(0, 0, 0, 2 * groups, 0, 2 * columns) else Bill(0, 0, 0, groups, 0, columns)
  }

  /** The same, each group then reduced and merged. */
  function ReduceBill(three: bool, columns: nat, groups: nat): Bill {
    AddBill(three, columns, groups).(updates := groups)
  }

  lemma ReduceCharge(a: Stats, b: Stats, c: Stats, three: bool, columns: nat, groups: nat, count: nat)
    requires Charged(a, b, ReduceBill(three, columns, groups)) && Charged(b, c, ReduceBill(three, count, 1))
    ensures Charged(a, c, ReduceBill(three, columns + count, groups + 1))
  {
    ChargeBoth(a, b, c, ReduceBill(three, columns, groups), ReduceBill(three, count, 1));
  }

  lemma PassCharge(s: Stats, c: Config, count: nat, phase: Phase)
    requires Fair(s, c) && count <= c.lanes && (phase.Add1Phase? || phase.Add2Phase?) && |s.phases| == PHASES
    ensures Fair(Passed(s, c, count, phase), c) && Charged(s, Passed(s, c, count, phase), PassBill(count))
  {
    assert Audited(s);
    PassKeeps(s, c, count, phase);
  }

  lemma MergeCharge(s: Stats, c: Config)
    requires Fair(s, c) && |s.phases| == PHASES
    ensures Fair(Merged(s, c), c) && Charged(s, Merged(s, c), MergeBill())
  {
    assert Audited(s);
    MergeKeeps(s, c);
  }

  lemma SpendCharge(s: Stats, c: Config, phase: Phase)
    requires Fair(s, c) && (phase.DrainPhase? || phase.ControlPhase?) && |s.phases| == PHASES
    ensures Fair(Ticked(s, phase, 1), c) && Charged(s, Ticked(s, phase, 1), FREE)
  {
    assert Audited(s);
    TickKeeps(s, c, phase, 1);
  }

  lemma FairPhases(s: Stats, c: Config)
    requires Fair(s, c)
    ensures |s.phases| == PHASES
  {
    assert Audited(s);
  }

  lemma MovedCharge(a: Stats, b: Stats, role: Role, bytes: nat)
    requires Moving(a, b, role, bytes, 0) && !role.ForDescriptor?
    ensures Charged(a, b, if role.ForOperand? then OperandBill(bytes) else ResultBill(bytes))
  {
    assert Audited(b);
  }

  /** Lane groups of `columns` columns in one chunk. */
  function Groups(columns: nat, lanes: nat): nat
    requires lanes > 0
  {
    if columns == 0 then 0 else 1 + Groups(if lanes < columns then columns - lanes else 0, lanes)
  }

  lemma GroupsStep(columns: nat, lanes: nat, count: nat)
    requires lanes > 0 && columns > 0 && count == if lanes < columns then lanes else columns
    ensures Groups(columns, lanes) == 1 + Groups(columns - count, lanes)
  {
  }

  /** Lane groups of a row of `columns` columns, cut into chunks of `tn`. */
  function RowGroups(columns: nat, c: Config): nat
    requires c.Valid()
  {
    if columns == 0 then 0
    else if c.tn < columns then Groups(c.tn, c.lanes) + RowGroups(columns - c.tn, c)
    else Groups(columns, c.lanes)
  }

  lemma RowGroupsStep(columns: nat, c: Config, chunk: nat)
    requires c.Valid() && columns > 0 && chunk == if c.tn < columns then c.tn else columns
    ensures RowGroups(columns, c) == Groups(chunk, c.lanes) + RowGroups(columns - chunk, c)
  {
  }

  /** A chunk takes as many groups as its columns over the lanes, rounded up. */
  lemma {:induction false} GroupsExact(columns: nat, lanes: nat)
    requires lanes > 0
    ensures Groups(columns, lanes) * lanes < columns + lanes && columns <= Groups(columns, lanes) * lanes
    decreases columns
  {
    if columns > 0 {
      var rest := if lanes < columns then columns - lanes else 0;
      GroupsExact(rest, lanes);
      assert Groups(columns, lanes) * lanes == Groups(rest, lanes) * lanes + lanes;
    }
  }

  // ---------------------------------------------------------- bills of commands

  lemma OperandCharge(a: Stats, b: Stats, c: Stats, x: nat, y: nat)
    requires Charged(a, b, OperandBill(x)) && Charged(b, c, OperandBill(y))
    ensures Charged(a, c, OperandBill(x + y))
  {
    ChargeBoth(a, b, c, OperandBill(x), OperandBill(y));
  }

  /** Some columns of a reduction: operands loaded, added, reduced and merged. */
  function RowBill(three: bool, columns: nat, groups: nat): Bill {
    ReduceBill(three, columns, groups).(operand := if three then 12 * columns else 8 * columns)
  }

  lemma RowCharge(a: Stats, b: Stats, c: Stats, three: bool, columns: nat, groups: nat)
    requires Charged(a, b, OperandBill(if three then 12 * columns else 8 * columns))
    requires Charged(b, c, ReduceBill(three, columns, groups))
    ensures Charged(a, c, RowBill(three, columns, groups))
  {
    ChargeBoth(a, b, c, OperandBill(if three then 12 * columns else 8 * columns), ReduceBill(three, columns, groups));
  }

  lemma RowCharges(a: Stats, b: Stats, c: Stats, three: bool, columns: nat, groups: nat, more: nat, moreGroups: nat)
    requires Charged(a, b, RowBill(three, columns, groups)) && Charged(b, c, RowBill(three, more, moreGroups))
    ensures Charged(a, c, RowBill(three, columns + more, groups + moreGroups))
  {
    ChargeBoth(a, b, c, RowBill(three, columns, groups), RowBill(three, more, moreGroups));
  }

  /** So many vectors loaded, added and reduced, all of the same columns and groups. */
  function VectorBill(loads: nat, sums: nat, rows: nat, columns: nat, groups: nat): Bill {
    Bill(0, 4 * Offset(loads, columns), 0, Offset(sums, groups), Offset(rows, groups), Offset(sums, columns))
  }

  lemma VectorBillRows(loads: nat, sums: nat, rows: nat, moreLoads: nat, moreSums: nat, moreRows: nat,
                       columns: nat, groups: nat)
    ensures Combined(VectorBill(loads, sums, rows, columns, groups),
                     VectorBill(moreLoads, moreSums, moreRows, columns, groups))
            == VectorBill(loads + moreLoads, sums + moreSums, rows + moreRows, columns, groups)
  {
    OffsetRows(loads, moreLoads, columns);
    OffsetRows(sums, moreSums, groups);
    OffsetRows(rows, moreRows, groups);
    OffsetRows(sums, moreSums, columns);
  }

  lemma VectorBillColumns(loads: nat, sums: nat, rows: nat, columns: nat, groups: nat, more: nat, moreGroups: nat)
    ensures Combined(VectorBill(loads, sums, rows, columns, groups), VectorBill(loads, sums, rows, more, moreGroups))
            == VectorBill(loads, sums, rows, columns + more, groups + moreGroups)
  {
    OffsetColumns(loads, columns, more);
    OffsetColumns(sums, groups, moreGroups);
    OffsetColumns(rows, groups, moreGroups);
    OffsetColumns(sums, columns, more);
  }

  /** Some columns of a projection: the shared vectors loaded `shares` times (and added as often
      when there are two of them), and so many matrix rows. */
  function ProjectBill(two: bool, shares: nat, rows: nat, columns: nat, groups: nat): Bill {
    if two then VectorBill(2 * shares + rows, shares + rows, rows, columns, groups)
    else VectorBill(shares + rows, rows, rows, columns, groups)
  }

  lemma ProjectBillRows(two: bool, shares: nat, rows: nat, moreShares: nat, moreRows: nat, columns: nat, groups: nat)
    ensures Combined(ProjectBill(two, shares, rows, columns, groups),
                     ProjectBill(two, moreShares, moreRows, columns, groups))
            == ProjectBill(two, shares + moreShares, rows + moreRows, columns, groups)
  {
    if two {
      VectorBillRows(2 * shares + rows, shares + rows, rows, 2 * moreShares + moreRows, moreShares + moreRows,
                     moreRows, columns, groups);
    } else {
      VectorBillRows(shares + rows, rows, rows, moreShares + moreRows, moreRows, moreRows, columns, groups);
    }
  }

  lemma ProjectBillColumns(two: bool, shares: nat, rows: nat, columns: nat, groups: nat, more: nat, moreGroups: nat)
    ensures Combined(ProjectBill(two, shares, rows, columns, groups), ProjectBill(two, shares, rows, more, moreGroups))
            == ProjectBill(two, shares, rows, columns + more, groups + moreGroups)
  {
    if two {
      VectorBillColumns(2 * shares + rows, shares + rows, rows, columns, groups, more, moreGroups);
    } else {
      VectorBillColumns(shares + rows, rows, rows, columns, groups, more, moreGroups);
    }
  }

  lemma ProjectRowsCharge(a: Stats, b: Stats, c: Stats, two: bool, shares: nat, rows: nat, moreShares: nat,
                          moreRows: nat, columns: nat, groups: nat)
    requires Charged(a, b, ProjectBill(two, shares, rows, columns, groups))
    requires Charged(b, c, ProjectBill(two, moreShares, moreRows, columns, groups))
    ensures Charged(a, c, ProjectBill(two, shares + moreShares, rows + moreRows, columns, groups))
  {
    ChargeBoth(a, b, c, ProjectBill(two, shares, rows, columns, groups),
               ProjectBill(two, moreShares, moreRows, columns, groups));
    ProjectBillRows(two, shares, rows, moreShares, moreRows, columns, groups);
  }

  lemma ProjectColumnsCharge(a: Stats, b: Stats, c: Stats, two: bool, shares: nat, rows: nat, columns: nat,
                             groups: nat, more: nat, moreGroups: nat)
    requires Charged(a, b, ProjectBill(two, shares, rows, columns, groups))
    requires Charged(b, c, ProjectBill(two, shares, rows, more, moreGroups))
    ensures Charged(a, c, ProjectBill(two, shares, rows, columns + more, groups + moreGroups))
  {
    ChargeBoth(a, b, c, ProjectBill(two, shares, rows, columns, groups),
               ProjectBill(two, shares, rows, more, moreGroups));
    ProjectBillColumns(two, shares, rows, columns, groups, more, moreGroups);
  }

  /** The bill of loading the shared part once. */
  lemma SharedBill(columns: nat, groups: nat)
    ensures OperandBill(4 * columns) == ProjectBill(false, 1, 0, columns, groups)
    ensures Combined(OperandBill(8 * columns), AddBill(false, columns, groups))
            == ProjectBill(true, 1, 0, columns, groups)
  {
    OffsetSmall(columns);
    OffsetSmall(groups);
  }

  lemma MatrixCharge(a: Stats, b: Stats, c: Stats, two: bool, columns: nat, groups: nat)
    requires Charged(a, b, OperandBill(4 * columns)) && Charged(b, c, ReduceBill(false, columns, groups))
    ensures Charged(a, c, ProjectBill(two, 0, 1, columns, groups))
  {
    ChargeBoth(a, b, c, OperandBill(4 * columns), ReduceBill(false, columns, groups));
    OffsetSmall(columns);
    OffsetSmall(groups);
  }

  lemma NoRowsCharge(s: Stats, c: Config, two: bool, columns: nat, groups: nat)
    requires Fair(s, c)
    ensures Charged(s, s, ProjectBill(two, 0, 0, columns, groups))
  {
    ChargeNothing(s, c);
  }

  lemma NoColumnsBill(two: bool, shares: nat, rows: nat)
    ensures ProjectBill(two, shares, rows, 0, 0) == FREE
  {
    OffsetZero(2 * shares + rows);
    OffsetZero(shares + rows);
    OffsetZero(rows);
  }

  lemma ResultCharge(a: Stats, b: Stats, c: Stats, count: nat, more: nat, width: nat)
    requires Charged(a, b, ResultBill(Offset(count, width))) && Charged(b, c, ResultBill(Offset(more, width)))
    ensures Charged(a, c, ResultBill(Offset(count + more, width)))
  {
    ChargeBoth(a, b, c, ResultBill(Offset(count, width)), ResultBill(Offset(more, width)));
    OffsetRows(count, more, width);
  }

  /** Tiles of a projection: shared part once per tile, every row once, results of `width` bytes. */
  function TilesBill(two: bool, tiles: nat, rows: nat, columns: nat, groups: nat, width: nat): Bill {
    ProjectBill(two, tiles, rows, columns, groups).(result := Offset(rows, width))
  }

  lemma TileCharge(a: Stats, b: Stats, c: Stats, two: bool, rows: nat, columns: nat, groups: nat, width: nat)
    requires Charged(a, b, ProjectBill(two, 1, rows, columns, groups)) && Charged(b, c, ResultBill(Offset(rows, width)))
    ensures Charged(a, c, TilesBill(two, 1, rows, columns, groups, width))
  {
    ChargeBoth(a, b, c, ProjectBill(two, 1, rows, columns, groups), ResultBill(Offset(rows, width)));
  }

  lemma TilesCharge(a: Stats, b: Stats, c: Stats, two: bool, tiles: nat, rows: nat, next: nat, columns: nat,
                    groups: nat, width: nat)
    requires rows <= next && Charged(a, b, TilesBill(two, tiles, rows, columns, groups, width))
    requires Charged(b, c, TilesBill(two, 1, next - rows, columns, groups, width))
    ensures Charged(a, c, TilesBill(two, tiles + 1, next, columns, groups, width))
  {
    var more := next - rows;
    ChargeBoth(a, b, c, TilesBill(two, tiles, rows, columns, groups, width),
               TilesBill(two, 1, more, columns, groups, width));
    ProjectBillRows(two, tiles, rows, 1, more, columns, groups);
    OffsetRows(rows, more, width);
  }

  /** Some elements of a vector addition. */
  function AdditionBill(columns: nat, groups: nat): Bill { Bill(0, 8 * columns, 4 * columns, groups, 0, columns) }

  lemma AdditionCharge(a: Stats, b: Stats, c: Stats, columns: nat, groups: nat)
    requires Charged(a, b, Combined(OperandBill(8 * columns), AddBill(false, columns, groups)))
    requires Charged(b, c, ResultBill(Offset(columns, 4)))
    ensures Charged(a, c, AdditionBill(columns, groups))
  {
    OffsetIsProduct(columns, 4);
    ChargeBoth(a, b, c, Combined(OperandBill(8 * columns), AddBill(false, columns, groups)), ResultBill(4 * columns));
  }

  lemma AdditionCharges(a: Stats, b: Stats, c: Stats, columns: nat, groups: nat, next: nat, moreGroups: nat)
    requires columns <= next && Charged(a, b, AdditionBill(columns, groups))
    requires Charged(b, c, AdditionBill(next - columns, moreGroups))
    ensures Charged(a, c, AdditionBill(next, groups + moreGroups))
  {
    ChargeBoth(a, b, c, AdditionBill(columns, groups), AdditionBill(next - columns, moreGroups));
  }

  // --------------------------------------------------- descriptors and children

  function DescriptorBill(bytes: nat): Bill { Bill(bytes, 0, 0, 0, 0, 0) }

  /** Like `Charged`, with decodes and barriers that other steps of the same command still have to
      match. */
  ghost predicate OwingNow(a: Stats, b: Stats, bill: Bill, decodes: int, barriers: int) {
    && |a.phases| == PHASES && |b.phases| == PHASES
    && GapsOf(b).bytes == GapsOf(a).bytes && GapsOf(b).requests == GapsOf(a).requests
    && GapsOf(b).decodes == GapsOf(a).decodes + decodes && GapsOf(b).barriers == GapsOf(a).barriers + barriers
    && b.descriptorBytes == a.descriptorBytes + bill.descriptor
    && b.operandBytes == a.operandBytes + bill.operand
    && b.resultBytes == a.resultBytes + bill.result
    && b.laneGroups == a.laneGroups + bill.groups
    && b.stateUpdates == a.stateUpdates + bill.updates
    && b.activeElements == a.activeElements + bill.elements
  }

  ghost predicate Owing(a: Stats, b: Stats, bill: Bill, decodes: int, barriers: int) {
    forall t {:trigger Audited(t)} :: Audited(t) && t == b ==> OwingNow(a, t, bill, decodes, barriers)
  }

  lemma OwingBoth(a: Stats, b: Stats, c: Stats, x: Bill, y: Bill, d: int, e: int, d': int, e': int)
    requires Owing(a, b, x, d, e) && Owing(b, c, y, d', e')
    ensures Owing(a, c, Combined(x, y), d + d', e + e')
  {
    assert Audited(b) && Audited(c);
  }

  lemma OwingNothing(a: Stats, b: Stats, bill: Bill)
    ensures Owing(a, b, bill, 0, 0) <==> Charged(a, b, bill)
  {
    assert Audited(b);
  }

  lemma OwingAfter(a: Stats, b: Stats, c: Stats, bill: Bill, d: int, e: int, d': int, e': int)
    requires Owing(a, b, FREE, d, e) && Owing(b, c, bill, d', e')
    ensures Owing(a, c, bill, d + d', e + e')
  {
    assert Audited(b) && Audited(c);
  }

  lemma OwingThen(a: Stats, b: Stats, c: Stats, bill: Bill, d: int, e: int, d': int, e': int)
    requires Owing(a, b, bill, d, e) && Owing(b, c, FREE, d', e')
    ensures Owing(a, c, bill, d + d', e + e')
  {
    assert Audited(b) && Audited(c);
  }

  lemma OwingFree(a: Stats, b: Stats, c: Stats, bill: Bill, decodes: int, barriers: int)
    requires Owing(a, b, bill, decodes, barriers) && Charged(b, c, FREE)
    ensures Owing(a, c, bill, decodes, barriers)
  {
    assert Audited(b) && Audited(c);
  }

  /** A descriptor transfer from `a` to `b` is attributed to the header or the body of a command,
      and decoded. */
  function Fetched(a: Stats, b: Stats, header: bool): (r: Stats)
    requires |b.phases| == PHASES && a.requests <= b.requests
    ensures |r.phases| == PHASES
  {
    var more := b.requests - a.requests;
    Ticked(if header then b.(headerRequests := b.headerRequests + more)
           else b.(bodyRequests := b.bodyRequests + more), DecodePhase, 1)
  }

  lemma FetchedFair(a: Stats, b: Stats, c: Config, header: bool)
    requires Fair(b, c) && |b.phases| == PHASES && a.requests <= b.requests
    ensures Fair(Fetched(a, b, header), c)
  {
    assert Audited(b);
    TickFacts(b, DecodePhase, 1);
  }

  lemma FetchedGaps(a: Stats, b: Stats, header: bool)
    requires |b.phases| == PHASES && a.requests <= b.requests
    ensures var g, h := GapsOf(b), GapsOf(Fetched(a, b, header));
            && h.bytes == g.bytes && h.barriers == g.barriers && h.decodes == g.decodes + 1
            && h.requests == g.requests - (b.requests - a.requests)
  {
    TickFacts(b, DecodePhase, 1);
  }

  lemma FetchOwes(a: Stats, b: Stats, c: Config, bytes: nat, header: bool)
    requires Moving(a, b, ForDescriptor, bytes, 0) && Fair(b, c) && |b.phases| == PHASES && a.requests <= b.requests
    ensures Fair(Fetched(a, b, header), c) && Owing(a, Fetched(a, b, header), DescriptorBill(bytes), 1, 0)
  {
    FetchedFair(a, b, c, header);
    FetchedGaps(a, b, header);
    assert Audited(b);
  }

  lemma CountsOwe(s: Stats, c: Config)
    requires Fair(s, c)
    ensures var r := s.(submissions := s.submissions + 1); Fair(r, c) && Owing(s, r, FREE, -2, 0)
    ensures var r := s.(children := s.children + 1); Fair(r, c) && Owing(s, r, FREE, -2, 1)
    ensures var r := s.(childBarriers := s.childBarriers + 1); Fair(r, c) && Owing(s, r, FREE, 0, -1)
  {
    assert Audited(s);
  }

  lemma ProtectionCharge(s: Stats, c: Config)
    requires Fair(s, c) && |s.phases| == PHASES
    ensures var r := Ticked(s, ProtectionPhase, 1).(protectionElements := s.protectionElements + 1);
            Fair(r, c) && Charged(s, r, FREE)
  {
    assert Audited(s);
    ProtectionKeeps(s, c);
  }

  /** What the report demands of a device all of whose submissions completed: every byte asked for
      was moved, every descriptor request was header or body, every command was decoded twice, and
      every child drained. */
  lemma SettledReport(s: Stats, work: Bill)
    requires Charged(NO_STATS, s, work)
    ensures s.transferredBytes == s.descriptorBytes + s.operandBytes + s.resultBytes
    ensures s.headerRequests + s.bodyRequests == s.descriptorRequests
    ensures |s.phases| == PHASES && s.In(DecodePhase) == 2 * (s.submissions + s.children)
    ensures s.childBarriers == s.children
  {
    assert Audited(s);
  }

  // -------------------------------------------------------------------- meter

  /** The engine's statistics, updated in place. */
  class Meter {
    var stats: Stats

    constructor ()
      ensures stats == NO_STATS
    {
      stats := NO_STATS;
    }

    method Tick(phase: Phase, n: nat)
      requires |stats.phases| == PHASES
      modifies this
      ensures stats == Ticked(old(stats), phase, n)
    {
      ghost var before := stats;
      for i := 0 to n
        invariant |stats.phases| == PHASES && stats == Ticked(before, phase, i)
      {
        stats := stats.(cycles := stats.cycles + 1,
                        phases := stats.phases[PhaseIndex(phase) := stats.phases[PhaseIndex(phase)] + 1]);
      }
    }

    /** A cycle of control or drain. */
    method Spend(c: Config, phase: Phase)
      requires Fair(stats, c) && (phase.DrainPhase? || phase.ControlPhase?)
      modifies this
      ensures Fair(stats, c) && Charged(old(stats), stats, FREE)
    {
      FairPhases(stats, c);
      SpendCharge(stats, c, phase);
      Tick(phase, 1);
    }

    /** After a header or body transfer that began at `before`. */
    method EndFetch(c: Config, ghost before: Stats, requests: nat, ghost bytes: nat, header: bool)
      requires Fair(stats, c) && requests == before.requests <= stats.requests
      requires Moving(before, stats, ForDescriptor, bytes, 0)
      modifies this
      ensures Fair(stats, c) && Owing(before, stats, DescriptorBill(bytes), 1, 0)
    {
      FairPhases(stats, c);
      FetchOwes(before, stats, c, bytes, header);
      if header {
        stats := stats.(headerRequests := stats.headerRequests + (stats.requests - requests));
      } else {
        stats := stats.(bodyRequests := stats.bodyRequests + (stats.requests - requests));
      }
      Tick(DecodePhase, 1);
    }

    /** A doorbell. */
    method Submit(c: Config)
      requires Fair(stats, c)
      modifies this
      ensures Fair(stats, c) && Owing(old(stats), stats, FREE, -2, 0)
    {
      CountsOwe(stats, c);
      stats := stats.(submissions := stats.submissions + 1);
    }

    method StartChild(c: Config)
      requires Fair(stats, c)
      modifies this
      ensures Fair(stats, c) && Owing(old(stats), stats, FREE, -2, 1)
    {
      CountsOwe(stats, c);
      stats := stats.(children := stats.children + 1);
    }

    method EndChild(c: Config)
      requires Fair(stats, c)
      modifies this
      ensures Fair(stats, c) && Owing(old(stats), stats, FREE, 0, -1)
    {
      CountsOwe(stats, c);
      stats := stats.(childBarriers := stats.childBarriers + 1);
    }

    /** The check of one output element. */
    method Check(c: Config)
      requires Fair(stats, c)
      modifies this
      ensures Fair(stats, c) && Charged(old(stats), stats, FREE)
    {
      FairPhases(stats, c);
      ProtectionCharge(stats, c);
      Tick(ProtectionPhase, 1);
      stats := stats.(protectionElements := stats.protectionElements + 1);
    }

    /** Counts one pass of checked additions. */
    method Pass(c: Config, count: nat, phase: Phase)
      requires Fair(stats, c) && count <= c.lanes && (phase.Add1Phase? || phase.Add2Phase?)
      modifies this
      ensures Fair(stats, c) && Charged(old(stats), stats, PassBill(count))
    {
      FairPhases(stats, c);
      PassCharge(stats, c, count, phase);
      stats := stats.(laneGroups := stats.laneGroups + 1, activeElements := stats.activeElements + count,
                      laneSlots := stats.laneSlots + c.lanes, tailSlots := stats.tailSlots + (c.lanes - count));
      Tick(phase, 1);
    }

    /** Starts a transfer: its bytes are charged to its role at once. */
    method Open(c: Config, role: Role, bytes: nat)
      requires Fair(stats, c)
      modifies this
      ensures Fair(stats, c) && Moving(old(stats), stats, role, bytes, bytes) && stats.requests == old(stats.requests)
    {
      MovingStart(stats, c, role, bytes);
      stats := Paid(stats, role, bytes);
    }

    /** The timing of one request; memory is accessed before its last tick. */
    method Request(c: Config, role: Role, size: nat, ghost before: Stats, ghost bytes: nat, ghost left: nat)
      requires Moving(before, stats, role, bytes, left) && size <= left && Fair(stats, c) && Fair(before, c)
      modifies this
      ensures Fair(stats, c) && Moving(before, stats, role, bytes, left - size)
      ensures stats.requests == old(stats.requests) + 1
    {
      assert Audited(stats);
      MovingStep(before, stats, c, role, bytes, left, size);
      Tick(MemoryWaitPhase, c.acceptanceDelay);
      stats := Counted(stats, role, size);
      Tick(role.Phase(), 1);
      Tick(MemoryWaitPhase, c.memoryLatency);
      Tick(role.Phase(), 1);
    }
  }
}
