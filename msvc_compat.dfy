/**
 * header/msvc_compat.h: the generic constructors compat::createArray and
 * compat::create2DArray (each with and without an initial value), both
 * branches of ARRAY_SIZE, and the MSVC-branch flat buffer VLA_FLAT_2D with
 * its accessor VLA_FLAT_2D_AT.
 */
module MsvcCompat {
  import opened VectorSemantics
  import opened RowMajor

  /** compat::create2DArray<T>(rows, cols): a rows x cols grid of T(). */
  function Create2DArray<T>(rows: nat, cols: nat, dflt: T): (m: seq<seq<T>>)
    ensures IsGrid(m, rows, cols, dflt)
  {
    Grid(rows, cols, dflt)
  }

  /** compat::create2DArray<T>(rows, cols, initValue): a rows x cols grid of
      copies of initValue. */
  function Create2DArrayFilled<T>(rows: nat, cols: nat, initValue: T): (m: seq<seq<T>>)
    ensures IsGrid(m, rows, cols, initValue)
  {
    Grid(rows, cols, initValue)
  }

  /** compat::createArray<T>(size): `size` elements, each T(). */
  function CreateArray<T>(size: nat, dflt: T): (a: seq<T>)
    ensures |a| == size
    ensures AllEqual(a, dflt)
  {
    Repeat(size, dflt)
  }

  /** compat::createArray<T>(size, initValue): `size` copies of initValue. */
  function CreateArrayFilled<T>(size: nat, initValue: T): (a: seq<T>)
    ensures |a| == size
    ensures AllEqual(a, initValue)
  {
    Repeat(size, initValue)
  }

  /** ARRAY_SIZE(size), MSVC branch: ((size > 0) ? size : 1). A positive size
      is kept and any other becomes 1, so the result is always a usable
      array extent. */
  function ArraySizeMsvc(size: int): (n: int)
    ensures n >= 1
    ensures size > 0 ==> n == size
    ensures size <= 0 ==> n == 1
  {
    if size > 0 then size else 1
  }

  /** ARRAY_SIZE(size), other compilers: the size itself. */
  function ArraySizeOther(size: int): (n: int)
    ensures n == size
  {
    size
  }

  /** The two branches of ARRAY_SIZE agree on a size exactly when it is
      positive. */
  lemma ArraySizeBranchesAgree(size: int)
    ensures ArraySizeMsvc(size) == ArraySizeOther(size) <==> size > 0
  {
  }

  /** Clamping an already clamped size changes nothing. */
  lemma ArraySizeMsvcIdempotent(size: int)
    ensures ArraySizeMsvc(ArraySizeMsvc(size)) == ArraySizeMsvc(size)
  {
  }

  /** VLA_FLAT_2D(type, name, rows, cols), MSVC branch: a std::vector of
      (rows) * (cols) default elements. */
  function VlaFlat2D<T>(rows: nat, cols: nat, dflt: T): (buf: seq<T>)
    ensures |buf| == rows * cols
    ensures AllEqual(buf, dflt)
  {
    Repeat(rows * cols, dflt)
  }

  /** VLA_FLAT_2D_AT(name, r, c, cols) on a VLA_FLAT_2D buffer: every in-range
      cell is inside the buffer, and two in-range cells share a slot exactly
      when they are the same cell. */
  lemma {:induction false} VlaFlat2DAtAddressing<T>(rows: nat, cols: nat, dflt: T,
                                                    r: nat, c: nat, r': nat, c': nat)
    requires r < rows && c < cols && r' < rows && c' < cols
    ensures FlatIndex(r, c, cols) == r * cols + c
    ensures FlatIndex(r', c', cols) == r' * cols + c'
    ensures FlatIndex(r, c, cols) < |VlaFlat2D(rows, cols, dflt)|
    ensures FlatIndex(r, c, cols) == FlatIndex(r', c', cols) <==> r == r' && c == c'
  {
    FlatIndexIsRowMajor(r, c, cols);
    FlatIndexIsRowMajor(r', c', cols);
    FlatIndexInRange(r, c, rows, cols);
    if FlatIndex(r, c, cols) == FlatIndex(r', c', cols) {
      FlatIndexInjective(r, c, r', c', cols);
    }
  }
}
