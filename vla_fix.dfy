/**
 * header/vla_fix.h: in-place utilities on std::vector (clear_array,
 * copy_array, reset_array), the value-initialised buffer of make_smart_array,
 * and the flat two-dimensional buffer DECLARE_FLAT_ARRAY_2D with its accessor
 * FLAT_ARRAY_2D_ELEMENT.
 */
module VlaFix {
  import opened VectorSemantics
  import opened RowMajor

  /** clear_array: std::fill of the whole vector with T(). The length is kept
      and every element becomes the default. */
  method ClearArray<T>(arr: Vector<T>, dflt: T)
    modifies arr
    ensures |arr.elems| == |old(arr.elems)|
    ensures AllEqual(arr.elems, dflt)
    ensures arr.elems == Fill(old(arr.elems), dflt)
  {
    arr.elems := Fill(arr.elems, dflt);
  }

  /** copy_array: dst.resize(src.size()), then std::copy of src into dst, one
      element at a time. Afterwards dst holds exactly src's elements, whatever
      it held before, and src is unchanged. For a non-empty v, copy_array(v, v)
      breaks std::copy's precondition; the model gives it the result of
      assigning each element to itself. */
  method CopyArray<T>(src: Vector<T>, dst: Vector<T>, dflt: T)
    modifies dst
    ensures dst.elems == old(src.elems)
    ensures src.elems == old(src.elems)
  {
    ResizedToOwnSize(src.elems, dflt);
    dst.Resize(|src.elems|, dflt);
    var i := 0;
    while i < |src.elems|
      invariant src.elems == old(src.elems)
      invariant |dst.elems| == |src.elems|
      invariant 0 <= i <= |src.elems|
      invariant forall k :: 0 <= k < i ==> dst.elems[k] == src.elems[k]
    {
      dst.elems := dst.elems[i := src.elems[i]];
      i := i + 1;
    }
    assert dst.elems == src.elems;
  }

  /** The state reset_array reaches: clear() leaves no element, and
      resize(size) then appends `size` copies of T(). This is what clear_array
      gives too. */
  lemma ResetMatchesClear<T>(s: seq<T>, dflt: T)
    ensures Resized([], |s|, dflt) == Fill(s, dflt)
  {
    ResizedFromEmpty(|s|, dflt);
    FillIsRepeat(s, dflt);
  }

  /** reset_array: record the size, clear(), resize(size). The count is kept
      and every element is the default, as after clear_array. */
  method ResetArray<T>(arr: Vector<T>, dflt: T)
    modifies arr
    ensures |arr.elems| == |old(arr.elems)|
    ensures AllEqual(arr.elems, dflt)
    ensures arr.elems == Fill(old(arr.elems), dflt)
  {
    var size := |arr.elems|;
    arr.Clear();
    arr.Resize(size, dflt);
    ResetMatchesClear(old(arr.elems), dflt);
  }

  /** Once src and dst are different vectors, copy_array leaves dst with a
      copy of its own: a later write to src does not reach dst. */
  method CopyThenWriteSource<T>(src: Vector<T>, dst: Vector<T>, dflt: T, i: nat, x: T)
    requires src != dst
    requires i < |src.elems|
    modifies src, dst
    ensures dst.elems == old(src.elems)
    ensures src.elems == old(src.elems)[i := x]
  {
    CopyArray(src, dst, dflt);
    src.elems := src.elems[i := x];
  }

  /** reset_array on a freshly declared std::vector<T>(size, v): `size`
      copies of T(), whatever v was. */
  method ResetDeclaredVector<T>(size: nat, v: T, dflt: T) returns (arr: Vector<T>)
    ensures fresh(arr)
    ensures arr.elems == Repeat(size, dflt)
  {
    arr := new Vector(size, v);
    ResetArray(arr, dflt);
    FillIsRepeat(Repeat(size, v), dflt);
  }

  /** make_smart_array<T>(size): new T[size](), a fresh buffer of `size`
      value-initialised elements. */
  method MakeSmartArray<T>(size: nat, dflt: T) returns (a: array<T>)
    ensures fresh(a)
    ensures a.Length == size
    ensures a[..] == Repeat(size, dflt)
  {
    a := new T[size](_ => dflt);
    assert forall i :: 0 <= i < size ==> a[..][i] == Repeat(size, dflt)[i];
  }

  /** DECLARE_FLAT_ARRAY_2D(type, name, rows, cols): a std::vector of
      (rows) * (cols) default elements. */
  function DeclareFlatArray2D<T>(rows: nat, cols: nat, dflt: T): (buf: seq<T>)
    ensures |buf| == rows * cols
    ensures AllEqual(buf, dflt)
  {
    Repeat(rows * cols, dflt)
  }

  /** FLAT_ARRAY_2D_ELEMENT(name, row, col, width) with width == cols on a
      DECLARE_FLAT_ARRAY_2D buffer: every in-range cell is inside the buffer,
      and two in-range cells share a slot exactly when they are the same cell. */
  lemma {:induction false} FlatArray2DElementAddressing<T>(rows: nat, cols: nat, dflt: T,
                                                           r: nat, c: nat, r': nat, c': nat)
    requires r < rows && c < cols && r' < rows && c' < cols
    ensures FlatIndex(r, c, cols) == r * cols + c
    ensures FlatIndex(r', c', cols) == r' * cols + c'
    ensures FlatIndex(r, c, cols) < |DeclareFlatArray2D(rows, cols, dflt)|
    ensures FlatIndex(r, c, cols) == FlatIndex(r', c', cols) <==> r == r' && c == c'
  {
    FlatIndexIsRowMajor(r, c, cols);
    FlatIndexIsRowMajor(r', c', cols);
    FlatIndexInRange(r, c, rows, cols);
    if FlatIndex(r, c, cols) == FlatIndex(r', c', cols) {
      FlatIndexInjective(r, c, r', c', cols);
    }
  }

  /** A fresh DECLARE_FLAT_ARRAY_2D buffer reads T() in every cell, and after
      a write of v through FLAT_ARRAY_2D_ELEMENT the written cell reads v while
      every other cell still reads T(). */
  lemma FlatArray2DWriteThenRead<T>(rows: nat, cols: nat, dflt: T,
                                    r: nat, c: nat, r': nat, c': nat, v: T)
    requires r < rows && c < cols && r' < rows && c' < cols
    ensures FlatIndex(r', c', cols) < |DeclareFlatArray2D(rows, cols, dflt)|
    ensures Load(DeclareFlatArray2D(rows, cols, dflt), r', c', cols) == dflt
    ensures FlatIndex(r, c, cols) < |DeclareFlatArray2D(rows, cols, dflt)|
    ensures Load(Store(DeclareFlatArray2D(rows, cols, dflt), r, c, cols, v), r', c', cols)
         == if r == r' && c == c' then v else dflt
  {
    StoreThenLoad(DeclareFlatArray2D(rows, cols, dflt), rows, cols, r, c, r', c', v);
  }
}
