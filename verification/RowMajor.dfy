/** Two-dimensional tables stored row by row in one list. */
module RowMajor {

  /** Row-major position i * cols + j of a cell, one row at a time. */
  function Key(i: nat, j: nat, cols: nat): nat {
    if i == 0 then j else Key(i - 1, j, cols) + cols
  }

  lemma {:induction false} KeyIsRowMajor(i: nat, j: nat, cols: nat)
    ensures Key(i, j, cols) == i * cols + j
  {
    if i > 0 {
      KeyIsRowMajor(i - 1, j, cols);
      assert (i - 1) * cols + cols == i * cols;
    }
  }

  lemma {:induction false} LaterRowLaterKey(i: nat, j: nat, i': nat, j': nat, cols: nat)
    requires i < i' && j < cols
    ensures Key(i, j, cols) < Key(i', j', cols)
  {
    if i > 0 {
      LaterRowLaterKey(i - 1, j, i' - 1, j', cols);
    }
  }

  lemma {:induction false} SameRowOrder(i: nat, j: nat, j': nat, cols: nat)
    ensures Key(i, j, cols) - Key(i, j', cols) == j - j'
  {
    if i > 0 {
      SameRowOrder(i - 1, j, j', cols);
    }
  }

  /** No two cells share a position. */
  lemma {:induction false} KeysDiffer(i: nat, j: nat, i': nat, j': nat, cols: nat)
    requires j < cols && j' < cols && Key(i, j, cols) == Key(i', j', cols)
    ensures i == i' && j == j'
  {
    if i < i' {
      LaterRowLaterKey(i, j, i', j', cols);
    } else if i' < i {
      LaterRowLaterKey(i', j', i, j, cols);
    } else {
      SameRowOrder(i, j, j', cols);
    }
  }

  /** Every cell of a rows-by-cols table lies inside the rows * cols positions. */
  lemma {:induction false} KeyInRange(i: nat, j: nat, rows: nat, cols: nat)
    requires i < rows && j < cols
    ensures Key(i, j, cols) < Key(rows, 0, cols)
  {
    LaterRowLaterKey(i, j, rows, 0, cols);
  }
}
