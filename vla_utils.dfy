/**
 * header/vla_utils.h: the MSVC-branch three-dimensional shape VLA_3D, the
 * MSVC-branch flat buffer VLA_AUTO_2D with its accessor VLA_AT_AUTO_2D, the
 * three createMatrix overloads and initMatrix.
 */
module VlaUtils {
  import opened VectorSemantics
  import opened RowMajor

  /** VLA_3D (MSVC branch): Size1 outer entries, each a Size2 x Size3 grid of
      default elements. */
  function Vla3D<T>(size1: nat, size2: nat, size3: nat, dflt: T): (a: seq<seq<seq<T>>>)
    ensures |a| == size1
    ensures forall i :: 0 <= i < size1 ==> IsGrid(a[i], size2, size3, dflt)
  {
    Repeat(size1, Grid(size2, size3, dflt))
  }

  /** createMatrix<T, Rows, Cols>(): a Rows x Cols matrix of T(). */
  function CreateMatrixFixed<T>(rows: nat, cols: nat, dflt: T): (m: seq<seq<T>>)
    ensures IsGrid(m, rows, cols, dflt)
  {
    Grid(rows, cols, dflt)
  }

  /** createMatrix<T>(rows, cols): a rows x cols matrix of T(). */
  function CreateMatrix<T>(rows: nat, cols: nat, dflt: T): (m: seq<seq<T>>)
    ensures IsGrid(m, rows, cols, dflt)
  {
    Grid(rows, cols, dflt)
  }

  /** createMatrix<T>(rows, cols, value): a rows x cols matrix of copies of value. */
  function CreateMatrixFilled<T>(rows: nat, cols: nat, value: T): (m: seq<seq<T>>)
    ensures IsGrid(m, rows, cols, value)
  {
    Grid(rows, cols, value)
  }

  /** The matrix initMatrix leaves: every row filled with value. The number
      of rows and each row's own length are kept, ragged rows included. */
  function FillRows<T>(m: seq<seq<T>>, value: T): (r: seq<seq<T>>)
    ensures |r| == |m|
    ensures forall k :: 0 <= k < |m| ==> |r[k]| == |m[k]| && AllEqual(r[k], value)
  {
    if m == [] then [] else [Fill(m[0], value)] + FillRows(m[1..], value)
  }

  /** A matrix all of whose rows are value-filled and of the same lengths as
      m's rows is FillRows(m, value). */
  lemma {:induction false} FillRowsCharacterised<T>(m: seq<seq<T>>, n: seq<seq<T>>, value: T)
    requires |n| == |m|
    requires forall k :: 0 <= k < |m| ==> n[k] == Fill(m[k], value)
    ensures n == FillRows(m, value)
  {
    var r := FillRows(m, value);
    forall k | 0 <= k < |m|
      ensures n[k] == r[k]
    {
      FillIsRepeat(m[k], value);
      RepeatCharacterised(r[k], value);
    }
  }

  /** initMatrix(matrix, value): for each row, std::fill(row, value). */
  method InitMatrix<T>(matrix: Vector<seq<T>>, value: T)
    modifies matrix
    ensures matrix.elems == FillRows(old(matrix.elems), value)
  {
    var i := 0;
    while i < |matrix.elems|
      invariant 0 <= i <= |matrix.elems|
      invariant |matrix.elems| == |old(matrix.elems)|
      invariant forall k :: 0 <= k < i ==> matrix.elems[k] == Fill(old(matrix.elems)[k], value)
      invariant forall k :: i <= k < |matrix.elems| ==> matrix.elems[k] == old(matrix.elems)[k]
    {
      matrix.elems := matrix.elems[i := Fill(matrix.elems[i], value)];
      i := i + 1;
    }
    FillRowsCharacterised(old(matrix.elems), matrix.elems, value);
  }

  /** initMatrix on a fresh createMatrix(rows, cols) gives
      createMatrix(rows, cols, value). */
  lemma {:induction false} InitMatrixOfCreateMatrix<T>(rows: nat, cols: nat, dflt: T, value: T)
    ensures FillRows(CreateMatrix(rows, cols, dflt), value) == CreateMatrixFilled(rows, cols, value)
  {
    GridCharacterised(FillRows(CreateMatrix(rows, cols, dflt), value), rows, cols, value);
  }

  /** initMatrix on the std::vector object that createMatrix(rows, cols)
      builds leaves it equal to createMatrix(rows, cols, value). */
  method InitCreatedMatrix<T>(rows: nat, cols: nat, dflt: T, value: T) returns (m: Vector<seq<T>>)
    ensures fresh(m)
    ensures m.elems == CreateMatrixFilled(rows, cols, value)
  {
    m := new Vector(rows, Repeat(cols, dflt));
    assert m.elems == CreateMatrix(rows, cols, dflt);
    InitMatrix(m, value);
    InitMatrixOfCreateMatrix(rows, cols, dflt, value);
  }

  /** A size argument of a macro as the preprocessor sees it: a single
      operand, or an unparenthesised sum of two operands such as `n + 1`. */
  datatype SizeArg = Atom(value: nat) | Sum(lhs: nat, rhs: nat)

  /** The value the caller means by the argument. */
  function SizeValue(e: SizeArg): nat {
    match e
    case Atom(v) => v
    case Sum(a, b) => a + b
  }

  /** VLA_AUTO_2D (MSVC branch) as written: `new Type[Size1 * Size2]` pastes
      the arguments unparenthesised, so `*` binds to the operands next to it. */
  function AutoBuffer2DLengthAsWritten(size1: SizeArg, size2: SizeArg): nat {
    match (size1, size2)
    case (Atom(x), Atom(y)) => x * y
    case (Sum(a, b), Atom(y)) => a + b * y
    case (Atom(x), Sum(c, d)) => x * c + d
    case (Sum(a, b), Sum(c, d)) => a + b * c + d
  }

  /** With single-operand arguments the macro allocates Size1 * Size2 slots. */
  lemma AutoBuffer2DAtomsAgree(x: nat, y: nat)
    ensures AutoBuffer2DLengthAsWritten(Atom(x), Atom(y)) == AutoBuffer2DLength(Atom(x), Atom(y))
  {
  }

  /** VLA_AUTO_2D(int, buf, n + 1, 2) with n == 1 allocates 1 + 1 * 2 == 3
      slots, yet VLA_AT_AUTO_2D(buf, 1, 1, 2), the last cell of the intended
      2 x 2 buffer, addresses slot 3: past the end. */
  lemma AutoBuffer2DCompoundSizeOverruns()
    ensures SizeValue(Sum(1, 1)) == 2 && SizeValue(Atom(2)) == 2
    ensures AutoBuffer2DLengthAsWritten(Sum(1, 1), Atom(2)) == 3
    ensures FlatIndex(1, 1, 2) >= AutoBuffer2DLengthAsWritten(Sum(1, 1), Atom(2))
  {
  }

  /** More generally, whenever the first size is a sum whose left operand is
      positive and the second size exceeds 1, the buffer as written is
      smaller than the one meant. */
  lemma {:induction false} AutoBuffer2DCompoundSizeShort(a: nat, b: nat, y: nat)
    requires a > 0 && y > 1
    ensures AutoBuffer2DLengthAsWritten(Sum(a, b), Atom(y)) < AutoBuffer2DLength(Sum(a, b), Atom(y))
  {
    assert (a + b) * y == a * y + b * y;
    assert a * y == a * (y - 2) + 2 * a;
  }

  /** VLA_AUTO_2D as intended: (Size1) * (Size2) slots, the product of the
      values meant by the two arguments. */
  function AutoBuffer2DLength(size1: SizeArg, size2: SizeArg): nat {
    SizeValue(size1) * SizeValue(size2)
  }

  /** VLA_AT_AUTO_2D(buf, row, col, width) with width == Size2 on the intended
      VLA_AUTO_2D buffer: every in-range cell is inside it, and two in-range
      cells share a slot exactly when they are the same cell. */
  lemma {:induction false} AutoAt2DAddressing(size1: SizeArg, size2: SizeArg, width: nat,
                                              r: nat, c: nat, r': nat, c': nat)
    requires width == SizeValue(size2)
    requires r < SizeValue(size1) && c < width && r' < SizeValue(size1) && c' < width
    ensures FlatIndex(r, c, width) == r * width + c
    ensures FlatIndex(r', c', width) == r' * width + c'
    ensures FlatIndex(r, c, width) < AutoBuffer2DLength(size1, size2)
    ensures FlatIndex(r, c, width) == FlatIndex(r', c', width) <==> r == r' && c == c'
  {
    FlatIndexIsRowMajor(r, c, width);
    FlatIndexIsRowMajor(r', c', width);
    FlatIndexInRange(r, c, SizeValue(size1), width);
    if FlatIndex(r, c, width) == FlatIndex(r', c', width) {
      FlatIndexInjective(r, c, r', c', width);
    }
  }
}
