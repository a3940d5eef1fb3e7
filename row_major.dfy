/**
 * Row-major flat addressing shared by the flat two-dimensional buffers of all
 * three headers: cell (r, c) of a buffer with `cols` columns is slot
 * r * cols + c. For 0 <= r < rows and 0 <= c < cols this is a bijection onto
 * [0, rows * cols).
 */
module RowMajor {

  /** The number of slots taken by r whole rows of `cols` cells, counted row
      by row; RowOffsetIsProduct shows it is r * cols. */
  function RowOffset(r: nat, cols: nat): nat {
    if r == 0 then 0 else RowOffset(r - 1, cols) + cols
  }

  /** r whole rows of `cols` cells take r * cols slots. */
  lemma {:induction false} RowOffsetIsProduct(r: nat, cols: nat)
    ensures RowOffset(r, cols) == r * cols
  {
    if r > 0 {
      RowOffsetIsProduct(r - 1, cols);
      assert r * cols == (r - 1) * cols + cols;
    }
  }

  /** A later row starts at least one whole row after an earlier one. */
  lemma {:induction false} RowOffsetGrows(r: nat, r': nat, cols: nat)
    requires r < r'
    ensures RowOffset(r, cols) + cols <= RowOffset(r', cols)
  {
    if r + 1 < r' {
      RowOffsetGrows(r, r' - 1, cols);
    }
  }

  /** The slot of cell (r, c) when each row holds `cols` cells: the r whole
      rows before it, then c more. */
  function FlatIndex(r: nat, c: nat, cols: nat): nat {
    RowOffset(r, cols) + c
  }

  /** FlatIndex is the row-major formula r * cols + c of the headers. */
  lemma FlatIndexIsRowMajor(r: nat, c: nat, cols: nat)
    ensures FlatIndex(r, c, cols) == r * cols + c
  {
    RowOffsetIsProduct(r, cols);
  }

  /** Every in-range cell lands inside a buffer of rows * cols slots. */
  lemma {:induction false} FlatIndexInRange(r: nat, c: nat, rows: nat, cols: nat)
    requires r < rows && c < cols
    ensures FlatIndex(r, c, cols) < RowOffset(rows, cols)
    ensures FlatIndex(r, c, cols) < rows * cols
  {
    if r + 1 < rows {
      RowOffsetGrows(r, rows - 1, cols);
    }
    RowOffsetIsProduct(rows, cols);
  }

  /** Two cells whose columns are in range share a slot only if they are the
      same cell. */
  lemma {:induction false} FlatIndexInjective(r: nat, c: nat, r': nat, c': nat, cols: nat)
    requires c < cols && c' < cols
    requires FlatIndex(r, c, cols) == FlatIndex(r', c', cols)
    ensures r == r' && c == c'
  {
    if r < r' {
      RowOffsetGrows(r, r', cols);
    } else if r' < r {
      RowOffsetGrows(r', r, cols);
    }
  }

  /** Every slot of a rows * cols buffer is the slot of an in-range cell: the
      one in row i / cols and column i % cols. */
  lemma {:induction false} FlatIndexOnto(i: nat, rows: nat, cols: nat)
    requires i < rows * cols
    ensures cols > 0
    ensures i / cols < rows && i % cols < cols
    ensures FlatIndex(i / cols, i % cols, cols) == i
  {
    RowOffsetIsProduct(rows, cols);
    FlatIndexIsRowMajor(i / cols, i % cols, cols);
    if rows <= i / cols {
      RowOffsetIsProduct(i / cols, cols);
      if rows < i / cols {
        RowOffsetGrows(rows, i / cols, cols);
      }
    }
  }

  /** Reading cell (r, c) of a flat buffer: buf[r * cols + c]. No bounds check
      is made; the caller guarantees the slot exists. */
  function Load<T>(buf: seq<T>, r: nat, c: nat, cols: nat): T
    requires FlatIndex(r, c, cols) < |buf|
  {
    buf[FlatIndex(r, c, cols)]
  }

  /** Writing v into cell (r, c) of a flat buffer: buf[r * cols + c] = v. */
  function Store<T>(buf: seq<T>, r: nat, c: nat, cols: nat, v: T): (b: seq<T>)
    requires FlatIndex(r, c, cols) < |buf|
    ensures |b| == |buf|
  {
    buf[FlatIndex(r, c, cols) := v]
  }

  /** In a rows * cols buffer, a write to one in-range cell is read back from
      that cell and leaves every other in-range cell as it was. */
  lemma {:induction false} StoreThenLoad<T>(buf: seq<T>, rows: nat, cols: nat,
                                            r: nat, c: nat, r': nat, c': nat, v: T)
    requires |buf| == rows * cols
    requires r < rows && c < cols && r' < rows && c' < cols
    ensures FlatIndex(r, c, cols) < |buf| && FlatIndex(r', c', cols) < |buf|
    ensures Load(Store(buf, r, c, cols, v), r', c', cols)
         == if r == r' && c == c' then v else Load(buf, r', c', cols)
  {
    FlatIndexInRange(r, c, rows, cols);
    FlatIndexInRange(r', c', rows, cols);
    if FlatIndex(r, c, cols) == FlatIndex(r', c', cols) {
      FlatIndexInjective(r, c, r', c', cols);
    }
  }
}
