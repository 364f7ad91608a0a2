/** The lane array of the L2 engine (accelerator/src/l2_accelerator.cpp: add, reduce): checked
    additions of one lane group, the in-place binary tree over the lanes, and the merge into a
    row state. */
module Lanes {
  import opened Basics
  import opened Costs
  import opened Kernels
  import opened Commands
  import opened Meters

  /** The comparator: smaller value, then smaller index. */
  predicate Less(a: MinArg, b: MinArg) { a.value < b.value || (a.value == b.value && a.index < b.index) }

  function Pick(a: MinArg, b: MinArg): MinArg { if Less(b, a) then b else a }

  ghost predicate IsBest(s: seq<MinArg>, m: MinArg) {
    m in s && forall i :: 0 <= i < |s| ==> !Less(s[i], m)
  }

  function Best(s: seq<MinArg>): (m: MinArg)
    requires |s| > 0
    ensures IsBest(s, m)
  {
    var last := |s| - 1;
    if last == 0 then s[0]
    else
      var m := Best(s[..last]);
      assert forall i :: 0 <= i < last ==> s[i] == s[..last][i];
      Pick(m, s[last])
  }

  lemma BestUnique(s: seq<MinArg>, m: MinArg)
    requires |s| > 0 && IsBest(s, m)
    ensures m == Best(s)
  {
    var b := Best(s);
    var i :| 0 <= i < |s| && s[i] == m;
    var j :| 0 <= j < |s| && s[j] == b;
    assert !Less(s[i], b) && !Less(s[j], m);
  }

  // ---------------------------------------------------------------- the tree

  /** What a level leaves at lane `i`: neighbours compared, or an odd tail unchanged. */
  function Above(s: seq<MinArg>, i: nat): MinArg
    requires 2 * i < |s|
  {
    if 2 * i + 1 < |s| then Pick(s[2 * i], s[2 * i + 1]) else s[2 * i]
  }

  /** One tree level. */
  ghost predicate IsLevel(s: seq<MinArg>, up: seq<MinArg>) {
    |up| == (|s| + 1) / 2 && forall i {:trigger up[i]} :: 0 <= i < |up| ==> up[i] == Above(s, i)
  }

  lemma NotLessTransitive(a: MinArg, b: MinArg, c: MinArg)
    requires !Less(a, b) && !Less(b, c)
    ensures !Less(a, c)
  {
  }

  /** The best entry of a level is the best entry below it. */
  lemma LevelKeeps(s: seq<MinArg>, up: seq<MinArg>, m: MinArg)
    requires IsLevel(s, up) && IsBest(up, m)
    ensures IsBest(s, m)
  {
    var k :| 0 <= k < |up| && up[k] == m;
    assert m == Above(s, k);
    forall i | 0 <= i < |s| ensures !Less(s[i], m) {
      assert up[i / 2] == Above(s, i / 2);
      NotLessTransitive(s[i], up[i / 2], m);
    }
  }

  lemma LevelBest(s: seq<MinArg>, up: seq<MinArg>)
    requires |s| > 0 && IsLevel(s, up)
    ensures Best(up) == Best(s)
  {
    LevelKeeps(s, up, Best(up));
    BestUnique(s, Best(up));
  }

  /** Runs one level in place. */
  method RunLevel(lanes: array<MinArg>, live: nat)
    requires 1 <= live <= lanes.Length
    modifies lanes
    ensures IsLevel(old(lanes[..live]), lanes[..(live + 1) / 2])
  {
    ghost var s := lanes[..live];
    var half := live / 2;
    for i := 0 to half
      invariant forall j {:trigger lanes[j]} :: 0 <= j < i ==> lanes[j] == Above(s, j)
      invariant forall j {:trigger lanes[j]} :: i <= j < live ==> lanes[j] == s[j]
    {
      var a, b := lanes[2 * i], lanes[2 * i + 1];
      lanes[i] := if Less(b, a) then b else a;
    }
    if live % 2 == 1 {
      lanes[half] := lanes[live - 1];
    }
  }

  lemma TickedTwice(s: Stats, phase: Phase, a: nat, b: nat)
    requires |s.phases| == PHASES
    ensures Ticked(Ticked(s, phase, a), phase, b) == Ticked(s, phase, a + b)
  {
  }

  /** One registered level. */
  method TreeLevel(lanes: array<MinArg>, live: nat, meter: Meter, ghost before: Stats, ghost levels: nat)
    requires 1 <= live <= lanes.Length && |before.phases| == PHASES && meter.stats == Ticked(before, TreePhase, levels)
    modifies lanes, meter
    ensures Best(lanes[..(live + 1) / 2]) == Best(old(lanes[..live]))
    ensures meter.stats == Ticked(before, TreePhase, levels + 1)
  {
    ghost var below := lanes[..live];
    RunLevel(lanes, live);
    LevelBest(below, lanes[..(live + 1) / 2]);
    meter.Tick(TreePhase, 1);
    TickedTwice(before, TreePhase, levels, 1);
  }

  /** As many levels as the full lane width needs, over the live lanes only, one cycle each: the
      first lane ends up with the best of them. */
  method RunTree(lanes: array<MinArg>, count: nat, width: nat, meter: Meter)
    requires 1 <= count <= width <= lanes.Length && |meter.stats.phases| == PHASES
    modifies lanes, meter
    ensures lanes[0] == Best(old(lanes[..count]))
    ensures |old(meter.stats).phases| == PHASES && meter.stats == Ticked(old(meter.stats), TreePhase, Levels(width))
  {
    var live, span := count, width;
    ghost var before, levels, best := meter.stats, 0, Best(lanes[..count]);
    while span > 1
      invariant 1 <= live <= span <= width && Best(lanes[..live]) == best
      invariant levels + Levels(span) == Levels(width) && meter.stats == Ticked(before, TreePhase, levels)
      decreases span
    {
      TreeLevel(lanes, live, meter, before, levels);
      live := (live + 1) / 2;
      span := (span + 1) / 2;
      levels := levels + 1;
    }
    assert lanes[..live] == [lanes[0]];
  }

  // ------------------------------------------------------- rows and row states

  /** The values of a lane group with their column numbers. */
  function Indexed(values: seq<int>, base: nat): (s: seq<MinArg>)
    ensures |s| == |values|
    ensures forall i {:trigger s[i]} :: 0 <= i < |s| ==> s[i] == MinArg(values[i], base + i)
  {
    seq(|values|, i requires 0 <= i < |values| => MinArg(values[i], base + i))
  }

  lemma BestIndexed(values: seq<int>, base: nat)
    requires |values| > 0
    ensures Best(Indexed(values, base))
            == MinArg(FirstMin(values).value, base + FirstMin(values).index)
  {
    var m := FirstMin(values);
    var s := Indexed(values, base);
    assert IsFirstMin(values, m);
    assert s[m.index] == MinArg(m.value, base + m.index);
    forall i | 0 <= i < |s| ensures !Less(s[i], MinArg(m.value, base + m.index)) {
      assert m.value <= values[i];
    }
    BestUnique(s, MinArg(m.value, base + m.index));
  }

  ghost predicate AtMostInf(values: seq<int>) { forall i :: 0 <= i < |values| ==> values[i] <= INF }

  lemma PickFirst(row: seq<int>, group: seq<int>, a: MinArg, b: MinArg)
    requires IsFirstMin(row, a) && IsFirstMin(group, b)
    ensures IsFirstMin(row + group, Pick(a, MinArg(b.value, |row| + b.index)))
  {
    var all := row + group;
    var m := Pick(a, MinArg(b.value, |row| + b.index));
    forall i | 0 <= i < |all| ensures m.value <= all[i] && (i < m.index ==> m.value < all[i]) {
      if i >= |row| {
        assert all[i] == group[i - |row|];
      }
    }
  }

  /** Merging a group into the state of its row, which starts at {INF, 0}, gives the minimum and
      first index of the longer row, rows of forbidden values included. */
  lemma MergeGroup(row: seq<int>, group: seq<int>)
    requires |group| > 0 && AtMostInf(row) && AtMostInf(group)
    ensures Pick(FirstMin(row), Best(Indexed(group, |row|))) == FirstMin(row + group)
  {
    BestIndexed(group, |row|);
    if |row| == 0 {
      assert row + group == group;
      StartState(group);
    } else {
      PickFirst(row, group, FirstMin(row), FirstMin(group));
      FirstMinUnique(row + group, Pick(FirstMin(row), Best(Indexed(group, |row|))));
    }
  }

  /** The initial state never beats a row's own minimum. */
  lemma StartState(group: seq<int>)
    requires |group| > 0 && AtMostInf(group)
    ensures Pick(MinArg(INF, 0), FirstMin(group)) == FirstMin(group)
  {
    var m := FirstMin(group);
    assert IsFirstMin(group, m) && group[0] <= INF;
  }

  // -------------------------------------------------------------- lane groups

  /** The operands of a row chunk: two vectors, or three added from left to right. */
  datatype Operands = Operands(left: seq<int>, right: seq<int>, third: Option<seq<int>>) {
    predicate Aligned() { |left| == |right| && (third.Some? ==> |third.value| == |left|) }

    function Sum(i: nat): int
      requires Aligned() && i < |left|
    {
      var sum := Add(left[i], right[i]);
      if third.None? then sum else Add(sum, third.value[i])
    }

    predicate Fine(i: nat)
      requires Aligned() && i < |left|
    {
      && AddChecked(left[i], right[i]).Sum?
      && (third.Some? ==> AddChecked(Add(left[i], right[i]), third.value[i]).Sum?)
    }
  }

  function Sums(x: Operands): (sums: seq<int>)
    requires x.Aligned()
    ensures |sums| == |x.left|
    ensures forall i {:trigger sums[i]} :: 0 <= i < |sums| ==> sums[i] == x.Sum(i)
  {
    seq(|x.left|, i requires 0 <= i < |x.left| => x.Sum(i))
  }

  /** No addition from `start` to `end` is refused. */
  predicate FineRange(x: Operands, start: nat, end: nat)
    requires x.Aligned() && start <= end <= |x.left|
  {
    start == end || (FineRange(x, start, end - 1) && x.Fine(end - 1))
  }

  lemma {:induction false} FineJoin(x: Operands, start: nat, mid: nat, end: nat)
    requires x.Aligned() && start <= mid <= end <= |x.left|
    ensures FineRange(x, start, mid) && FineRange(x, mid, end) <==> FineRange(x, start, end)
    decreases end
  {
    if mid < end {
      FineJoin(x, start, mid, end - 1);
    }
  }

  lemma SumsAtMostInf(x: Operands)
    requires x.Aligned()
    ensures AtMostInf(Sums(x))
  {
    forall i | 0 <= i < |x.left| ensures Sums(x)[i] <= INF {
      assert x.Sum(i) <= INF;
    }
  }

  /** Adds `right` to one group of `left` in the lanes, then writes the sums back. All lanes are
      computed; any refusal fails the group. */
  method AddGroup(c: Config, x: Operands, start: nat, count: nat, chunk: nat, lanes: array<MinArg>,
                  phase: Phase, meter: Meter)
    returns (ok: bool, bank: seq<int>)
    requires x.Aligned() && x.third.None? && start + count <= |x.left| && count <= lanes.Length == c.lanes
    requires Fair(meter.stats, c) && (phase.Add1Phase? || phase.Add2Phase?)
    modifies lanes, meter
    ensures Fair(meter.stats, c) && Charged(old(meter.stats), meter.stats, PassBill(count))
    ensures ok <==> FineRange(x, start, start + count)
    ensures ok ==> |bank| == |x.left|
    ensures ok ==> forall i {:trigger bank[i]} :: 0 <= i < |bank| ==>
              bank[i] == if start <= i < start + count then x.Sum(i) else x.left[i]
    ensures ok ==> forall i {:trigger lanes[i]} :: 0 <= i < count ==>
              lanes[i] == MinArg(x.Sum(start + i), chunk + start + i)
  {
    ok := true;
    for i := 0 to count
      invariant meter.stats == old(meter.stats)
      invariant ok <==> FineRange(x, start, start + i)
      invariant ok ==> forall j {:trigger lanes[j]} :: 0 <= j < i ==>
                  lanes[j] == MinArg(x.Sum(start + j), chunk + start + j)
    {
      var sum := AddChecked(x.left[start + i], x.right[start + i]);
      if sum.Rejected? {
        ok := false;
      } else {
        lanes[i] := MinArg(sum.value, chunk + start + i);
      }
    }
    meter.Pass(c, count, phase);
    bank := x.left;
    if ok {
      bank := WriteBack(x, start, count, lanes, chunk);
    }
  }

  method WriteBack(x: Operands, start: nat, count: nat, lanes: array<MinArg>, ghost chunk: nat)
    returns (bank: seq<int>)
    requires x.Aligned() && start + count <= |x.left| && count <= lanes.Length
    requires forall i {:trigger lanes[i]} :: 0 <= i < count ==>
               lanes[i] == MinArg(x.Sum(start + i), chunk + start + i)
    ensures |bank| == |x.left|
    ensures forall i {:trigger bank[i]} :: 0 <= i < |bank| ==>
              bank[i] == if start <= i < start + count then x.Sum(i) else x.left[i]
  {
    bank := x.left;
    for i := 0 to count
      invariant |bank| == |x.left|
      invariant forall j {:trigger bank[j]} :: 0 <= j < |bank| ==>
                  bank[j] == if start <= j < start + i then x.Sum(j) else x.left[j]
    {
      bank := bank[start + i := lanes[i].value];
    }
  }

  /** The bank after the groups before `start`: the rest still holds the first operand. */
  ghost predicate Untouched(x: Operands, bank: seq<int>, start: nat) {
    |bank| == |x.left| && forall i {:trigger bank[i]} :: start <= i < |bank| ==> bank[i] == x.left[i]
  }

  /** Adds the second and, if there is one, the third operand to a group. */
  method AddOperands(c: Config, x: Operands, bank: seq<int>, start: nat, count: nat, chunk: nat,
                     lanes: array<MinArg>, phase: Phase, meter: Meter)
    returns (ok: bool, sums: seq<int>)
    requires x.Aligned() && start + count <= |x.left| && count <= lanes.Length == c.lanes
    requires Untouched(x, bank, start)
    requires Fair(meter.stats, c) && (phase.Add1Phase? || phase.Add2Phase?)
    modifies lanes, meter
    ensures Fair(meter.stats, c)
    ensures ok ==> Charged(old(meter.stats), meter.stats, AddBill(x.third.Some?, count, 1))
    ensures ok <==> FineRange(x, start, start + count)
    ensures ok ==> Untouched(x, sums, start + count)
    ensures ok ==> forall i {:trigger lanes[i]} :: 0 <= i < count ==>
              lanes[i] == MinArg(x.Sum(start + i), chunk + start + i)
  {
    var two := Operands(bank, x.right, None);
    ghost var before := meter.stats;
    ok, sums := AddGroup(c, two, start, count, chunk, lanes, phase, meter);
    if x.third.None? {
      SameFine(x, two, start, start + count);
    } else if ok {
      var three := Operands(sums, x.third.value, None);
      ThreeFine(x, two, three, start, start + count);
      ghost var now := meter.stats;
      ok, sums := AddGroup(c, three, start, count, chunk, lanes, Add2Phase, meter);
      ChargeBoth(before, now, meter.stats, PassBill(count), PassBill(count));
    } else {
      TwoFine(x, two, start, start + count);
    }
  }

  lemma {:induction false} SameFine(x: Operands, y: Operands, start: nat, end: nat)
    requires x.Aligned() && y.Aligned() && |x.left| == |y.left| && start <= end <= |x.left|
    requires x.third.None? && y.third.None? && y.right == x.right
    requires forall i {:trigger y.left[i]} :: start <= i < end ==> y.left[i] == x.left[i]
    ensures FineRange(x, start, end) <==> FineRange(y, start, end)
  {
    if start < end {
      SameFine(x, y, start, end - 1);
    }
  }

  lemma {:induction false} TwoFine(x: Operands, two: Operands, start: nat, end: nat)
    requires x.Aligned() && two.Aligned() && |x.left| == |two.left| && start <= end <= |x.left|
    requires two.third.None? && two.right == x.right
    requires forall i {:trigger two.left[i]} :: start <= i < end ==> two.left[i] == x.left[i]
    ensures FineRange(x, start, end) ==> FineRange(two, start, end)
  {
    if start < end {
      TwoFine(x, two, start, end - 1);
    }
  }

  lemma {:induction false} ThreeFine(x: Operands, two: Operands, three: Operands, start: nat, end: nat)
    requires x.Aligned() && two.Aligned() && three.Aligned() && start <= end <= |x.left|
    requires |x.left| == |two.left| == |three.left| && x.third.Some?
    requires two.third.None? && two.right == x.right && three.third.None? && three.right == x.third.value
    requires forall i {:trigger two.left[i]} :: start <= i < end ==> two.left[i] == x.left[i]
    requires forall i {:trigger three.left[i]} :: start <= i < end ==> three.left[i] == two.Sum(i)
    requires FineRange(two, start, end)
    ensures FineRange(x, start, end) <==> FineRange(three, start, end)
  {
    if start < end {
      ThreeFine(x, two, three, start, end - 1);
    }
  }

  // --------------------------------------------------------------- row chunks

  lemma RowGrows(row: seq<int>, all: seq<int>, start: nat, end: nat)
    requires start <= end <= |all| && AtMostInf(row) && AtMostInf(all)
    ensures row + all[..end] == (row + all[..start]) + all[start..end]
    ensures AtMostInf(row + all[..start]) && AtMostInf(all[start..end])
  {
  }

  /** Tree and merge of one group into the state of its row. */
  method MergeLanes(c: Config, lanes: array<MinArg>, count: nat, state: MinArg, meter: Meter,
                    ghost row: seq<int>, ghost group: seq<int>)
    returns (merged: MinArg)
    requires 1 <= count == |group| && count <= lanes.Length == c.lanes && Fair(meter.stats, c)
    requires lanes[..count] == Indexed(group, |row|) && AtMostInf(row) && AtMostInf(group)
    requires state == FirstMin(row)
    modifies lanes, meter
    ensures merged == FirstMin(row + group)
    ensures Fair(meter.stats, c) && Charged(old(meter.stats), meter.stats, MergeBill())
  {
    MergeGroup(row, group);
    FairPhases(meter.stats, c);
    MergeCharge(meter.stats, c);
    RunTree(lanes, count, lanes.Length, meter);
    meter.Tick(MergePhase, 1);
    meter.stats := meter.stats.(stateUpdates := meter.stats.stateUpdates + 1);
    merged := if Less(lanes[0], state) then lanes[0] else state;
  }

  /** The state of a row after its first columns and the first `start` ones of a chunk. */
  ghost function StateAt(x: Operands, row: seq<int>, start: nat): MinArg
    requires x.Aligned() && start <= |x.left|
  {
    FirstMin(row + Sums(x)[..start])
  }

  /** One group: add, reduce, merge. */
  method ReduceGroup(c: Config, x: Operands, bank: seq<int>, start: nat, count: nat, chunk: nat,
                     lanes: array<MinArg>, phase: Phase, meter: Meter, state: MinArg, ghost row: seq<int>)
    returns (ok: bool, sums: seq<int>, merged: MinArg)
    requires x.Aligned() && 1 <= count <= lanes.Length == c.lanes && start + count <= |x.left|
    requires Fair(meter.stats, c) && (phase.Add1Phase? || phase.Add2Phase?)
    requires Untouched(x, bank, start) && AtMostInf(row) && chunk == |row|
    requires state == StateAt(x, row, start)
    modifies lanes, meter
    ensures Fair(meter.stats, c)
    ensures ok ==> Charged(old(meter.stats), meter.stats, ReduceBill(x.third.Some?, count, 1))
    ensures ok <==> FineRange(x, start, start + count)
    ensures ok ==> Untouched(x, sums, start + count) && merged == StateAt(x, row, start + count)
  {
    ghost var all := Sums(x);
    ghost var before := meter.stats;
    ok, sums := AddOperands(c, x, bank, start, count, chunk, lanes, phase, meter);
    merged := state;
    if ok {
      ghost var now := meter.stats;
      SumsAtMostInf(x);
      RowGrows(row, all, start, start + count);
      assert lanes[..count] == Indexed(all[start..start + count], |row + all[..start]|);
      merged := MergeLanes(c, lanes, count, state, meter, row + all[..start], all[start..start + count]);
      ChargeBoth(before, now, meter.stats, AddBill(x.third.Some?, count, 1), MergeBill());
    }
  }

  /** The columns of the next lane group. */
  function NextLanes(left: nat, lanes: nat): (count: nat)
    requires lanes > 0 && left > 0
    ensures 1 <= count <= left && count <= lanes
  {
    if lanes < left then lanes else left
  }

  /** The next group of a chunk. */
  method ReduceNext(c: Config, x: Operands, bank: seq<int>, start: nat, count: nat, chunk: nat,
                    lanes: array<MinArg>, phase: Phase, meter: Meter, state: MinArg, ghost row: seq<int>,
                    ghost before: Stats, ghost groups: nat)
    returns (ok: bool, sums: seq<int>, merged: MinArg, ghost sum: nat)
    requires x.Aligned() && lanes.Length == c.lanes > 0 && start < |x.left|
    requires count == NextLanes(|x.left| - start, c.lanes)
    requires Fair(meter.stats, c) && (phase.Add1Phase? || phase.Add2Phase?)
    requires Charged(before, meter.stats, ReduceBill(x.third.Some?, start, groups))
    requires Untouched(x, bank, start) && AtMostInf(row) && chunk == |row|
    requires state == StateAt(x, row, start) && FineRange(x, 0, start)
    modifies lanes, meter
    ensures Fair(meter.stats, c)
    ensures ok ==> Charged(before, meter.stats, ReduceBill(x.third.Some?, start + count, sum))
    ensures sum + Groups(|x.left| - start - count, c.lanes) == groups + Groups(|x.left| - start, c.lanes)
    ensures ok ==> FineRange(x, 0, start + count) && Untouched(x, sums, start + count)
    ensures ok ==> merged == StateAt(x, row, start + count)
    ensures !ok ==> !FineRange(x, 0, |x.left|)
  {
    ghost var now := meter.stats;
    GroupsStep(|x.left| - start, c.lanes, count);
    sum := groups + 1;
    FineJoin(x, 0, start, start + count);
    FineJoin(x, 0, start + count, |x.left|);
    ok, sums, merged := ReduceGroup(c, x, bank, start, count, chunk, lanes, phase, meter, state, row);
    if ok {
      ReduceCharge(before, now, meter.stats, x.third.Some?, start, groups, count);
    }
  }

  method ReduceGroups(c: Config, x: Operands, chunk: nat, lanes: array<MinArg>, phase: Phase, meter: Meter,
                      state: MinArg, ghost row: seq<int>, ghost total: nat)
    returns (ok: bool, merged: MinArg)
    requires x.Aligned() && AtMostInf(row) && chunk == |row| && state == StateAt(x, row, 0)
    requires lanes.Length == c.lanes > 0 && Fair(meter.stats, c) && (phase.Add1Phase? || phase.Add2Phase?)
    requires total == Groups(|x.left|, c.lanes)
    modifies lanes, meter
    ensures Fair(meter.stats, c)
    ensures ok ==> Charged(old(meter.stats), meter.stats, ReduceBill(x.third.Some?, |x.left|, total))
    ensures ok <==> FineRange(x, 0, |x.left|)
    ensures ok ==> merged == StateAt(x, row, |x.left|)
  {
    merged := state;
    var bank, start := x.left, 0;
    ghost var before := meter.stats;
    ghost var groups: nat := 0;
    ChargeNothing(before, c);
    while start < |x.left|
      invariant start <= |x.left| && Untouched(x, bank, start)
      invariant FineRange(x, 0, start) && merged == StateAt(x, row, start)
      invariant groups + Groups(|x.left| - start, c.lanes) == total
      invariant Fair(meter.stats, c) && Charged(before, meter.stats, ReduceBill(x.third.Some?, start, groups))
    {
      var count := NextLanes(|x.left| - start, lanes.Length);
      ok, bank, merged, groups :=
        ReduceNext(c, x, bank, start, count, chunk, lanes, phase, meter, merged, row, before, groups);
      if !ok {
        return;
      }
      start := start + count;
    }
    ok := true;
  }

  /** One chunk of one row, group by group, merged into the row's state. */
  method ReduceChunk(c: Config, x: Operands, chunk: nat, lanes: array<MinArg>, phase: Phase, meter: Meter,
                     state: MinArg, ghost row: seq<int>)
    returns (ok: bool, merged: MinArg)
    requires x.Aligned() && AtMostInf(row) && state == FirstMin(row) && chunk == |row|
    requires lanes.Length == c.lanes > 0 && Fair(meter.stats, c) && (phase.Add1Phase? || phase.Add2Phase?)
    modifies lanes, meter
    ensures Fair(meter.stats, c)
    ensures ok ==> Charged(old(meter.stats), meter.stats,
                           ReduceBill(x.third.Some?, |x.left|, Groups(|x.left|, c.lanes)))
    ensures ok <==> FineRange(x, 0, |x.left|)
    ensures ok ==> merged == FirstMin(row + Sums(x))
  {
    assert row + Sums(x)[..0] == row;
    assert Sums(x)[..|x.left|] == Sums(x);
    ok, merged := ReduceGroups(c, x, chunk, lanes, phase, meter, state, row, Groups(|x.left|, c.lanes));
  }

  /** The first addition of a whole chunk, kept for all rows. */
  method AddChunk(c: Config, x: Operands, chunk: nat, lanes: array<MinArg>, meter: Meter)
    returns (ok: bool, bank: seq<int>)
    requires x.Aligned() && x.third.None? && lanes.Length == c.lanes > 0 && Fair(meter.stats, c)
    modifies lanes, meter
    ensures Fair(meter.stats, c)
    ensures ok ==> Charged(old(meter.stats), meter.stats, AddBill(false, |x.left|, Groups(|x.left|, c.lanes)))
    ensures ok <==> FineRange(x, 0, |x.left|)
    ensures ok ==> bank == Sums(x)
  {
    bank := x.left;
    var start := 0;
    ghost var before, groups := meter.stats, 0;
    ChargeNothing(before, c);
    while start < |x.left|
      invariant start <= |x.left| == |bank| && FineRange(x, 0, start)
      invariant groups + Groups(|x.left| - start, c.lanes) == Groups(|x.left|, c.lanes)
      invariant Fair(meter.stats, c) && Charged(before, meter.stats, AddBill(false, start, groups))
      invariant forall i {:trigger bank[i]} :: 0 <= i < |bank| ==>
                  bank[i] == if i < start then x.Sum(i) else x.left[i]
    {
      var count := if lanes.Length < |x.left| - start then lanes.Length else |x.left| - start;
      FineJoin(x, 0, start, start + count);
      FineJoin(x, 0, start + count, |x.left|);
      var group := Operands(bank, x.right, None);
      SameFine(x, group, start, start + count);
      ghost var now := meter.stats;
      ok, bank := AddGroup(c, group, start, count, chunk, lanes, Add1Phase, meter);
      if !ok {
        return;
      }
      ChargeBoth(before, now, meter.stats, AddBill(false, start, groups), PassBill(count));
      groups := groups + 1;
      start := start + count;
    }
    ok := true;
  }
}
