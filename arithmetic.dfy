/** Non-linear facts about row-major layouts that the solver does not find on its own. */
module Arithmetic {
  lemma MulMonotone(a: int, b: int, c: nat)
    requires a <= b
    ensures a * c <= b * c
  {
  }

  lemma MulSucc(a: int, b: int)
    ensures (a + 1) * b == a * b + b
  {
  }

  /** Cell (row, col) of a rows-by-cols grid lies inside the flat buffer, before the next row starts. */
  lemma FlatIndexInside(row: int, col: int, cols: int, rows: int)
    requires 0 <= row < rows && 0 <= col < cols
    ensures 0 <= row * cols + col < (row + 1) * cols <= rows * cols
    ensures (row + 1) * cols == row * cols + cols
  {
    MulMonotone(row + 1, rows, cols);
  }

  /** A grid with at least one cell has at least one column. */
  lemma PositiveProduct(cols: int, rows: int)
    requires 0 <= cols && 0 <= rows && 0 < rows * cols
    ensures 0 < cols
  {
    if cols == 0 {
      assert false;
    }
  }

  /** A flat index below rows*cols splits into a row below `rows` and a column below `cols`. */
  lemma DivModInside(i: int, cols: int, rows: int)
    requires 0 <= i < rows * cols && 0 < cols
    ensures 0 <= i / cols < rows && 0 <= i % cols < cols
    ensures (i / cols) * cols + i % cols == i
  {
    var q, r := i / cols, i % cols;
    assert q * cols + r == i;
    if q < 0 {
      MulMonotone(q, -1, cols);
      assert false;
    }
    if q >= rows {
      MulMonotone(rows, q, cols);
      assert false;
    }
  }
}
