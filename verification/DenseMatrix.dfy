/** Dense matrices stored row by row in one flat array. */
module DenseMatrix {
  import opened LinearAlgebra
  import opened RowMajor

  /** The row lists behind a flat list of rows * cols entries. */
  ghost function Unflatten(flat: seq<real>, rows: nat, cols: nat): (m: Mat)
    requires |flat| == Key(rows, 0, cols)
    ensures |m| == rows && forall r :: 0 <= r < rows ==> |m[r]| == cols
    ensures forall r, c :: 0 <= r < rows && 0 <= c < cols ==>
      Key(r, c, cols) < |flat| && m[r][c] == flat[Key(r, c, cols)]
  {
    AllKeysInRange(rows, cols);
    seq(rows, r requires 0 <= r < rows => seq(cols, c requires 0 <= c < cols => flat[Key(r, c, cols)]))
  }

  lemma {:induction false} AllKeysInRange(rows: nat, cols: nat)
    ensures forall r, c :: 0 <= r < rows && 0 <= c < cols ==> Key(r, c, cols) < Key(rows, 0, cols)
  {
    forall r, c | 0 <= r < rows && 0 <= c < cols
      ensures Key(r, c, cols) < Key(rows, 0, cols)
    {
      KeyInRange(r, c, rows, cols);
    }
  }

  ghost function WithEntry(m: Mat, r: nat, c: nat, x: real): Mat
    requires r < |m| && c < |m[r]|
  {
    m[r := m[r][c := x]]
  }

  lemma {:induction false} UnflattenSet(flat: seq<real>, rows: nat, cols: nat, r: nat, c: nat, x: real)
    requires |flat| == Key(rows, 0, cols) && r < rows && c < cols
    ensures Key(r, c, cols) < |flat|
    ensures Unflatten(flat[Key(r, c, cols) := x], rows, cols) == WithEntry(Unflatten(flat, rows, cols), r, c, x)
  {
    KeyInRange(r, c, rows, cols);
    var m, m' := Unflatten(flat, rows, cols), Unflatten(flat[Key(r, c, cols) := x], rows, cols);
    forall i | 0 <= i < rows
      ensures m'[i] == WithEntry(m, r, c, x)[i]
    {
      forall j | 0 <= j < cols && (i != r || j != c)
        ensures Key(i, j, cols) != Key(r, c, cols)
      {
        if Key(i, j, cols) == Key(r, c, cols) {
          KeysDiffer(i, j, r, c, cols);
        }
      }
    }
  }

  ghost predicate SameShape(m: Mat, goal: Mat, rows: nat, cols: nat) {
    |m| == |goal| == rows && forall r :: 0 <= r < rows ==> |m[r]| == |goal[r]| == cols
  }

  /** m agrees with goal on every cell before (i, j), row by row. */
  ghost predicate FilledTo(m: Mat, goal: Mat, rows: nat, cols: nat, i: nat, j: nat) {
    && SameShape(m, goal, rows, cols)
    && forall a, b :: 0 <= a < rows && 0 <= b < cols && (a < i || (a == i && b < j)) ==> m[a][b] == goal[a][b]
  }

  lemma FillCell(m: Mat, goal: Mat, rows: nat, cols: nat, i: nat, j: nat)
    requires FilledTo(m, goal, rows, cols, i, j) && i < rows && j < cols
    ensures FilledTo(WithEntry(m, i, j, goal[i][j]), goal, rows, cols, i, j + 1)
  {
  }

  lemma NextRow(m: Mat, goal: Mat, rows: nat, cols: nat, i: nat)
    requires FilledTo(m, goal, rows, cols, i, cols)
    ensures FilledTo(m, goal, rows, cols, i + 1, 0)
  {
  }

  lemma AllFilled(m: Mat, goal: Mat, rows: nat, cols: nat)
    requires FilledTo(m, goal, rows, cols, rows, 0)
    ensures m == goal
  {
    forall r | 0 <= r < rows
      ensures m[r] == goal[r]
    {
    }
  }

  class Matrix {
    const rows: nat
    const cols: nat
    const data: array<real>

    ghost predicate Valid() {
      0 < rows && 0 < cols && data.Length == Key(rows, 0, cols)
    }

    /** The entries as a list of rows. */
    ghost function Entries(): (m: Mat)
      requires Valid()
      reads data
      ensures |m| == rows && forall r :: 0 <= r < rows ==> |m[r]| == cols
    {
      Unflatten(data[..], rows, cols)
    }

    /** A zero matrix; the dimensions must be positive. */
    constructor (rows: nat, cols: nat)
      requires 0 < rows && 0 < cols
      ensures Valid() && fresh(data) && this.rows == rows && this.cols == cols && data.Length == rows * cols
      ensures forall r, c :: 0 <= r < rows && 0 <= c < cols ==> Entries()[r][c] == 0.0
    {
      this.rows := rows;
      this.cols := cols;
      KeyIsRowMajor(rows, 0, cols);
      this.data := new real[rows * cols](_ => 0.0);
    }

    function At(r: nat, c: nat): (x: real)
      requires Valid() && r < rows && c < cols
      reads data
      ensures x == Entries()[r][c]
    {
      KeyInRange(r, c, rows, cols);
      data[Key(r, c, cols)]
    }

    /** Overwrite one entry. */
    method Set(r: nat, c: nat, x: real)
      requires Valid() && r < rows && c < cols
      modifies data
      ensures Entries() == WithEntry(old(Entries()), r, c, x)
    {
      KeyInRange(r, c, rows, cols);
      KeyIsRowMajor(r, c, cols);
      UnflattenSet(data[..], rows, cols, r, c, x);
      data[r * cols + c] := x;
      assert data[..] == old(data[..])[Key(r, c, cols) := x];
    }

    /** Entry (r, c) sits at position r * cols + c of the rows * cols positions. */
    lemma EntryAt(r: nat, c: nat)
      requires Valid() && r < rows && c < cols
      ensures data.Length == rows * cols && r * cols + c < data.Length
      ensures data[r * cols + c] == Entries()[r][c]
    {
      KeyInRange(r, c, rows, cols);
      KeyIsRowMajor(rows, 0, cols);
      KeyIsRowMajor(r, c, cols);
    }
  }
}
