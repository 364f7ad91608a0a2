/** Optional values, products by repeated addition, and 8-byte alignment, as all modules use them. */
module Basics {

  datatype Option<T> = None | Some(value: T)

  // ----------------------------------------------------------------- products

  /** `index * stride`, by repeated addition; `Offset(i, columns) + j` is the row-major slot of row i
      and column j. */
  function Offset(index: nat, stride: nat): nat {
    if index == 0 then 0 else Offset(index - 1, stride) + stride
  }

  lemma {:induction false} OffsetIsProduct(index: nat, stride: nat)
    ensures Offset(index, stride) == index * stride
  {
    if index > 0 {
      OffsetIsProduct(index - 1, stride);
      assert index * stride == (index - 1) * stride + stride;
    }
  }

  lemma {:induction false} OffsetMonotone(i: nat, j: nat, stride: nat)
    requires i <= j
    ensures Offset(i, stride) <= Offset(j, stride)
    ensures i < j ==> Offset(i, stride) + stride <= Offset(j, stride)
    decreases j
  {
    if i < j {
      OffsetMonotone(i, j - 1, stride);
    }
  }

  lemma {:induction false} OffsetUnit(index: nat)
    ensures Offset(index, 1) == index && Offset(index, 0) == 0
  {
    if index > 0 {
      OffsetUnit(index - 1);
    }
  }

  lemma {:induction false} OffsetColumns(rows: nat, a: nat, b: nat)
    ensures Offset(rows, a) + Offset(rows, b) == Offset(rows, a + b)
  {
    if rows > 0 {
      OffsetColumns(rows - 1, a, b);
    }
  }

  lemma {:induction false} OffsetRows(a: nat, b: nat, columns: nat)
    ensures Offset(a, columns) + Offset(b, columns) == Offset(a + b, columns)
  {
    if b > 0 {
      OffsetRows(a, b - 1, columns);
    }
  }

  lemma OffsetZero(rows: nat)
    ensures Offset(rows, 0) == 0
  {
    OffsetUnit(rows);
  }

  lemma OffsetSmall(n: nat)
    ensures Offset(1, n) == n && Offset(2, n) == 2 * n
  {
    assert Offset(0, n) == 0;
    assert Offset(1, n) == n;
  }

  lemma {:induction false} SlotInRange(i: nat, j: nat, rows: nat, columns: nat)
    requires i < rows && j < columns
    ensures Offset(i, columns) + j < Offset(rows, columns)
  {
    if i < rows - 1 {
      SlotInRange(i, j, rows - 1, columns);
    }
  }

  // ---------------------------------------------------------------- alignment

  /** The next multiple of eight. */
  function AlignUp(x: nat): (aligned: nat)
    ensures x <= aligned < x + 8 && aligned % 8 == 0
  {
    (x + 7) / 8 * 8
  }
}
