/** Row-major indexing. */
module Grid {
  lemma NextRow(row: nat, width: nat)
    ensures (row + 1) * width == row * width + width
  {
  }

  lemma {:induction false} RowInside(width: nat, rows: nat, row: nat)
    requires row < rows
    ensures 0 <= row * width <= row * width + width <= rows * width
  {
    NextRow(rows - 1, width);
    if row < rows - 1 { RowInside(width, rows - 1, row); }
  }
}
