/** What a projection and an in-place addition of contiguous operands do to the values guest memory
    holds. */
module VectorRuns {
  import opened Basics
  import opened Costs
  import opened Kernels
  import opened GuestMemory
  import opened Commands
  import opened Codec
  import opened Semantics
  import opened GuestStaging

  /** Nothing differs outside the range. */
  ghost predicate SameOutside(m: Memory, r: Memory, start: nat, size: nat) {
    && r.cells.Keys == m.cells.Keys && r.rom == m.rom
    && forall x {:trigger ByteAt(r, x)} :: !(start <= x < start + size) ==> ByteAt(r, x) == ByteAt(m, x)
  }

  lemma CostOutside(m: Memory, r: Memory, start: nat, size: nat, address: nat)
    requires SameOutside(m, r, start, size) && Apart(start, size, address, 4)
    ensures CostAt(r, address) == CostAt(m, address)
  {
    CostKept(m, r, address);
  }

  lemma HoldsOutside(m: Memory, r: Memory, start: nat, size: nat, address: nat, values: seq<int>)
    requires SameOutside(m, r, start, size) && Apart(start, size, address, 4 * |values|) && Holds(m, address, values)
    ensures Holds(r, address, values)
  {
    forall i | 0 <= i < |values| ensures CostAt(r, address + 4 * i) == Some(values[i]) {
      assert CostAt(m, address + 4 * i) == Some(values[i]);
      CostOutside(m, r, start, size, address + 4 * i);
    }
  }

  lemma HoldsRowsOutside(m: Memory, r: Memory, start: nat, size: nat, address: nat, rows: seq<seq<int>>, columns: nat)
    requires SameOutside(m, r, start, size) && Apart(start, size, address, 4 * Offset(|rows|, columns))
    requires HoldsRows(m, address, rows, columns) && Rectangular(rows, columns)
    ensures HoldsRows(r, address, rows, columns)
  {
    forall k | 0 <= k < |rows| ensures Holds(r, address + 4 * Offset(k, columns), rows[k]) {
      OffsetMonotone(k, |rows|, columns);
      assert |rows[k]| == columns;
      HoldsOutside(m, r, start, size, address + 4 * Offset(k, columns), rows[k]);
    }
  }

  // ----------------------------------------------------- contiguous cost outputs

  ghost predicate Contiguous(p: Shape) { p.stride == 1 && !p.pair }

  lemma ContiguousSlot(p: Shape, o: nat)
    requires Contiguous(p)
    ensures Slot(p, o) == p.base + 4 * o && OutWidth(p) == 4
  {
    OffsetUnit(o);
  }

  /** A command with contiguous cost outputs changes nothing else. */
  lemma OutputsOutside(p: Shape, m: Memory, r: Memory)
    requires Contiguous(p) && OnlyOutputs(p, m, r)
    ensures SameOutside(m, r, p.base, 4 * p.rows)
  {
    forall x | !(p.base <= x < p.base + 4 * p.rows) ensures ByteAt(r, x) == ByteAt(m, x) {
      if x in m.cells && Touched(p, x) {
        var o :| 0 <= o < p.rows && InSlot(p, o, x);
        ContiguousSlot(p, o);
      }
    }
  }

  ghost predicate Storable(m: Memory, address: nat, size: nat) { Writable(m, address, size) }

  lemma StoredStep(p: Shape, m: Memory, now: Memory, values: seq<int>, k: nat)
    requires Contiguous(p) && k < p.rows == |values| && Storable(m, p.base, 4 * p.rows)
    requires now.cells.Keys == m.cells.Keys && Holds(now, p.base, values[..k])
    requires IsInt32(values[k]) && Result(p, m, k).value == values[k]
    ensures Holds(Stored(now, Slot(p, k), Record(Result(p, m, k), p.pair)), p.base, values[..k + 1])
  {
    ContiguousSlot(p, k);
    assert Readable(now, p.base + 4 * k, 4);
    HoldsNext(now, p.base, values, k);
  }

  lemma {:induction false} StoredResults(p: Shape, m: Memory, k: nat, values: seq<int>)
    requires Contiguous(p) && k <= p.rows == |values| && Storable(m, p.base, 4 * p.rows)
    requires forall o {:trigger values[o]} :: 0 <= o < |values| ==>
               Result(p, m, o).value == values[o] && IsInt32(values[o])
    ensures Holds(StoreAll(p, m, Records(p, m), k), p.base, values[..k])
  {
    if k > 0 {
      StoredResults(p, m, k - 1, values);
      StoreNext(p, m, Records(p, m), k - 1);
      assert IsInt32(values[k - 1]);
      StoredStep(p, m, StoreAll(p, m, Records(p, m), k - 1), values, k - 1);
    }
  }

  lemma StorableSlot(p: Shape, m: Memory, o: nat)
    requires Contiguous(p) && Storable(m, p.base, 4 * p.rows) && o < p.rows
    ensures Writable(m, Slot(p, o), OutWidth(p))
  {
    ContiguousSlot(p, o);
  }

  lemma {:induction false} RowsAccepted(p: Shape, m: Memory, k: nat)
    requires Contiguous(p) && Storable(m, p.base, 4 * p.rows) && k <= p.rows
    ensures AcceptedRows(p, m, k) <==> forall o {:trigger RowAccepted(p, m, o)} :: 0 <= o < k ==> RowAccepted(p, m, o)
  {
    if k > 0 {
      RowsAccepted(p, m, k - 1);
      StorableSlot(p, m, k - 1);
    }
  }

  /** The outcome of a command with contiguous cost outputs, given the sums of each row. */
  ghost predicate Outcome(p: Shape, m: Memory, accepted: bool, values: seq<int>) {
    && (Spec(p, m).Some? <==> accepted)
    && (accepted ==> Holds(Spec(p, m).value, p.base, values) && SameOutside(m, Spec(p, m).value, p.base, 4 * p.rows))
  }

  /** Output `o` adds up these operands. */
  ghost predicate RowIs(p: Shape, m: Memory, o: nat, a: seq<int>, b: seq<int>)
    requires |a| == |b|
  {
    |a| == p.columns && (RowAccepted(p, m, o) <==> Accepted2(a, b))
    && (Accepted2(a, b) ==> Row(p, m, o, p.columns) == Sums2(a, b))
  }

  lemma {:induction false} RowSums(p: Shape, m: Memory, o: nat, a: seq<int>, b: seq<int>, n: nat)
    requires p.third.None? && n <= |a| == |b|
    requires forall i {:trigger a[i]} :: 0 <= i < n ==> CostAt(m, Place(p.first, o, i)) == Some(a[i])
    requires forall i {:trigger b[i]} :: 0 <= i < n ==> CostAt(m, Place(p.second, o, i)) == Some(b[i])
    ensures AcceptedTo(p, m, o, n) <==> Accepted2(a[..n], b[..n])
    ensures Accepted2(a[..n], b[..n]) ==> Row(p, m, o, n) == Sums2(a, b)[..n]
  {
    if n > 0 {
      RowSums(p, m, o, a, b, n - 1);
      var x, y := a[n - 1], b[n - 1];
      assert CostAt(m, Place(p.first, o, n - 1)) == Some(x) && CostAt(m, Place(p.second, o, n - 1)) == Some(y);
      AcceptedMore(a, b, n);
    }
  }

  lemma AcceptedMore(a: seq<int>, b: seq<int>, n: nat)
    requires 0 < n <= |a| == |b|
    ensures Accepted2(a[..n], b[..n]) <==> Accepted2(a[..n - 1], b[..n - 1]) && AddChecked(a[n - 1], b[n - 1]).Sum?
  {
    if Accepted2(a[..n], b[..n]) {
      assert a[..n][n - 1] == a[n - 1];
      var x, y := a[..n - 1], b[..n - 1];
      forall i {:trigger x[i]} | 0 <= i < n - 1 ensures AddChecked(x[i], y[i]).Sum? {
        assert a[..n][i] == x[i];
      }
    }
  }

  lemma MinimumIsInt32(a: seq<int>, b: seq<int>)
    requires |a| == |b|
    ensures IsInt32(FirstMin(Sums2(a, b)).value)
  {
    var m := FirstMin(Sums2(a, b));
    if |a| > 0 {
      assert Sums2(a, b)[m.index] == m.value;
    }
  }

  // ---------------------------------------------------------------- projection

  ghost predicate AllRowsAccepted(rows: seq<seq<int>>, vector: seq<int>)
    requires Rectangular(rows, |vector|)
  {
    forall r {:trigger rows[r]} :: 0 <= r < |rows| ==> Accepted2(rows[r], vector)
  }

  lemma ProjectRowIs(c: Command, m: Memory, rows: seq<seq<int>>, vector: seq<int>, o: nat)
    requires c.Project? && c.matrix.columnStride == 1 && c.vector.stride == 1 && c.matrix.rowStride == |vector|
    requires c.vector.length == |vector| && Rectangular(rows, |vector|) && o < |rows|
    requires HoldsRows(m, c.matrix.base, rows, |vector|) && Holds(m, c.vector.base, vector)
    ensures RowIs(Lower(c), m, o, rows[o], vector)
  {
    var p := Lower(c);
    var row := rows[o];
    assert |row| == |vector|;
    forall i | 0 <= i < |row| ensures CostAt(m, Place(p.first, o, i)) == Some(row[i]) {
      OffsetUnit(i);
    }
    forall i | 0 <= i < |row| ensures CostAt(m, Place(p.second, o, i)) == Some(vector[i]) {
      OffsetUnit(i);
      OffsetUnit(o);
    }
    RowSums(p, m, o, row, vector, |row|);
    assert row[..|row|] == row && vector[..|row|] == vector;
    assert Sums2(row, vector)[..|row|] == Sums2(row, vector);
  }

  /** A projection of staged operands fails exactly when an addition is refused, and leaves the row
      minima. */
  lemma ProjectDoes(c: Command, m: Memory, rows: seq<seq<int>>, vector: seq<int>)
    requires c.Project? && c.matrix.columnStride == 1 && c.vector.stride == 1 && c.matrix.rowStride == |vector|
    requires c.vector.length == |vector| && Rectangular(rows, |vector|)
    requires c.output.stride == 1 && !c.output.pair && c.output.length == |rows|
    requires HoldsRows(m, c.matrix.base, rows, |vector|) && Holds(m, c.vector.base, vector)
    requires Storable(m, c.output.base, 4 * |rows|)
    ensures Outcome(Lower(c), m, AllRowsAccepted(rows, vector), RowMins(rows, vector))
  {
    var p := Lower(c);
    forall o | 0 <= o < p.rows ensures RowIs(p, m, o, rows[o], vector) {
      ProjectRowIs(c, m, rows, vector, o);
    }
    RowsOutcome(p, m, rows, seq(|rows|, _ => vector));
    if AllRowsAccepted(rows, vector) {
      assert RowMins(rows, vector) == Minimums(rows, seq(|rows|, _ => vector));
    }
  }

  function Minimums(a: seq<seq<int>>, b: seq<seq<int>>): (values: seq<int>)
    requires |a| == |b| && forall o :: 0 <= o < |a| ==> |a[o]| == |b[o]|
    ensures |values| == |a|
    ensures forall o {:trigger values[o]} :: 0 <= o < |a| ==> values[o] == FirstMin(Sums2(a[o], b[o])).value
  {
    seq(|a|, o requires 0 <= o < |a| => FirstMin(Sums2(a[o], b[o])).value)
  }

  lemma ResultsAre(p: Shape, m: Memory, a: seq<seq<int>>, b: seq<seq<int>>)
    requires |a| == |b| == p.rows
    requires forall o {:trigger a[o]} {:trigger b[o]} :: 0 <= o < |a| ==> |a[o]| == |b[o]|
    requires forall o {:trigger a[o]} :: 0 <= o < |a| ==> RowIs(p, m, o, a[o], b[o]) && Accepted2(a[o], b[o])
    ensures forall o {:trigger Minimums(a, b)[o]} :: 0 <= o < p.rows ==>
              Result(p, m, o).value == Minimums(a, b)[o] && IsInt32(Minimums(a, b)[o])
  {
    forall o | 0 <= o < p.rows
      ensures Result(p, m, o).value == Minimums(a, b)[o] && IsInt32(Minimums(a, b)[o])
    {
      assert RowIs(p, m, o, a[o], b[o]);
      MinimumIsInt32(a[o], b[o]);
    }
  }

  lemma AcceptedOutcome(p: Shape, m: Memory, values: seq<int>)
    requires Contiguous(p) && Storable(m, p.base, 4 * p.rows) && |values| == p.rows && Accepted(p, m)
    requires forall o {:trigger values[o]} :: 0 <= o < p.rows ==>
               Result(p, m, o).value == values[o] && IsInt32(values[o])
    ensures Outcome(p, m, true, values)
  {
    StoredResults(p, m, p.rows, values);
    assert values[..p.rows] == values;
    StoreAllOnlyOutputs(p, m, Records(p, m), p.rows);
    OutputsOutside(p, m, Spec(p, m).value);
  }

  /** All outputs of a command whose rows add up these operands. */
  lemma RowsOutcome(p: Shape, m: Memory, a: seq<seq<int>>, b: seq<seq<int>>)
    requires Contiguous(p) && Storable(m, p.base, 4 * p.rows) && |a| == |b| == p.rows
    requires forall o {:trigger a[o]} {:trigger b[o]} :: 0 <= o < |a| ==> |a[o]| == |b[o]|
    requires forall o {:trigger a[o]} :: 0 <= o < |a| ==> RowIs(p, m, o, a[o], b[o])
    ensures Outcome(p, m, forall o {:trigger a[o]} :: 0 <= o < |a| ==> Accepted2(a[o], b[o]), Minimums(a, b))
  {
    if forall o {:trigger a[o]} :: 0 <= o < |a| ==> Accepted2(a[o], b[o]) {
      ResultsAre(p, m, a, b);
      AllAccepted(p, m, a, b);
      AcceptedOutcome(p, m, Minimums(a, b));
    } else {
      var o :| 0 <= o < |a| && !Accepted2(a[o], b[o]);
      assert RowIs(p, m, o, a[o], b[o]);
      OutputRefused(p, m, o);
    }
  }

  lemma AllAccepted(p: Shape, m: Memory, a: seq<seq<int>>, b: seq<seq<int>>)
    requires Contiguous(p) && Storable(m, p.base, 4 * p.rows) && |a| == |b| == p.rows
    requires forall o {:trigger a[o]} {:trigger b[o]} :: 0 <= o < |a| ==> |a[o]| == |b[o]|
    requires forall o {:trigger a[o]} :: 0 <= o < |a| ==> RowIs(p, m, o, a[o], b[o]) && Accepted2(a[o], b[o])
    ensures Accepted(p, m)
  {
    RowsAccepted(p, m, p.rows);
    forall o | 0 <= o < p.rows ensures RowAccepted(p, m, o) {
      assert RowIs(p, m, o, a[o], b[o]);
    }
  }

  // ------------------------------------------------------------------ addition

  function Singles(values: seq<int>): (s: seq<seq<int>>)
    ensures |s| == |values| && forall o {:trigger s[o]} :: 0 <= o < |s| ==> s[o] == [values[o]]
  {
    seq(|values|, o requires 0 <= o < |values| => [values[o]])
  }

  lemma AddRowIs(c: Command, m: Memory, a: seq<int>, b: seq<int>, o: nat)
    requires c.AddVector? && c.first.stride == 1 && c.second.stride == 1 && o < |a| == |b|
    requires Holds(m, c.first.base, a) && Holds(m, c.second.base, b)
    ensures RowIs(Lower(c), m, o, [a[o]], [b[o]])
  {
    var p := Lower(c);
    OffsetUnit(o);
    OffsetUnit(0);
    assert CostAt(m, Place(p.first, o, 0)) == Some(a[o]);
    assert CostAt(m, Place(p.second, o, 0)) == Some(b[o]);
    RowSums(p, m, o, [a[o]], [b[o]], 1);
    assert [a[o]][..1] == [a[o]] && [b[o]][..1] == [b[o]];
    assert Sums2([a[o]], [b[o]])[..1] == Sums2([a[o]], [b[o]]);
  }

  /** An addition of staged vectors fails exactly when an addition is refused, and leaves the
      sums. */
  lemma AddDoes(c: Command, m: Memory, a: seq<int>, b: seq<int>)
    requires c.AddVector? && c.first.stride == 1 && c.second.stride == 1 && |a| == |b|
    requires c.output.stride == 1 && c.output.length == |a|
    requires Holds(m, c.first.base, a) && Holds(m, c.second.base, b) && Storable(m, c.output.base, 4 * |a|)
    ensures Outcome(Lower(c), m, Accepted2(a, b), Sums2(a, b))
  {
    var p := Lower(c);
    var x, y := Singles(a), Singles(b);
    forall o | 0 <= o < |x| ensures RowIs(p, m, o, x[o], y[o]) {
      AddRowIs(c, m, a, b, o);
    }
    RowsOutcome(p, m, x, y);
    SinglesAccepted(a, b);
    assert Minimums(x, y) == Sums2(a, b);
  }

  lemma SinglesAccepted(a: seq<int>, b: seq<int>)
    requires |a| == |b|
    ensures var x, y := Singles(a), Singles(b);
            Accepted2(a, b) <==> forall o {:trigger x[o]} :: 0 <= o < |x| ==> Accepted2(x[o], y[o])
  {
    var x, y := Singles(a), Singles(b);
    if forall o {:trigger x[o]} :: 0 <= o < |x| ==> Accepted2(x[o], y[o]) {
      forall i | 0 <= i < |a| ensures AddChecked(a[i], b[i]).Sum? {
        assert Accepted2(x[i], y[i]);
        assert x[i][0] == a[i];
      }
    }
  }
}
