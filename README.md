# Dynamic-array helpers of the Map2Curve portability headers, in Dafny

The headers under `header/` replace C-style variable-length arrays with
`std::vector` (for MSVC) and add a few generic helpers. This project models
the helpers whose behaviour can be stated:

- `vla_fix.h`: `clear_array`, `copy_array`, `reset_array` (in-place updates of
  a caller's vector), the value-initialised buffer of `make_smart_array`, and
  the flat 2-D buffer `DECLARE_FLAT_ARRAY_2D` with `FLAT_ARRAY_2D_ELEMENT`.
- `vla_utils.h`: the three `createMatrix` overloads, `initMatrix` (a loop over
  the rows of a caller's matrix), the MSVC `VLA_3D` shape, and the MSVC flat
  buffer `VLA_AUTO_2D` with `VLA_AT_AUTO_2D`.
- `msvc_compat.h`: `compat::createArray` and `compat::create2DArray` (with and
  without an initial value), both branches of `ARRAY_SIZE`, and the MSVC flat
  buffer `VLA_FLAT_2D` with `VLA_FLAT_2D_AT`.

Module `VectorSemantics` holds what all three rely on from the C++ standard
library: `std::vector<T>(n)` and `std::vector<T>(n, v)` give n default-inserted
elements or n copies of v (ISO C++ [vector.cons]), `resize` keeps a prefix and
appends defaults, `clear` empties, and `std::fill` overwrites every element.
A `std::vector` object whose contents the helpers replace in place is the
class `Vector<T>`, its contents a `seq<T>` field; a matrix is a
`Vector<seq<T>>`. The element default `T()` is an explicit parameter `dflt`.
Sizes are `size_t`, modelled as `nat`. Module `RowMajor` holds the flat index
`r * cols + c` and the proof that it maps the in-range cells one-to-one onto
the slots of a `rows * cols` buffer; the three headers' flat-buffer lemmas use it.
There the offset of row r is counted row by row (`RowOffset`), and a lemma
shows that the count equals the product `r * cols` that the headers write.

## Model

| member | source | states |
|---|---|---|
| VectorSemantics.Repeat | header/msvc_compat.h:175-177 | `std::vector<T>(n, v)` has exactly n elements, each equal to v |
| VectorSemantics.RepeatCharacterised | header/msvc_compat.h:169-177 | a sequence is n copies of v if and only if every element is v (both directions) |
| VectorSemantics.Fill | header/vla_fix.h:24 | `std::fill` over the whole vector keeps its length and makes every element v |
| VectorSemantics.FillIsRepeat | header/vla_fix.h:24 | the filled vector depends only on the old length: it is that many copies of v |
| VectorSemantics.FillIdempotent | header/vla_fix.h:23-25 | filling twice with the same value equals filling once |
| VectorSemantics.Resized | header/vla_fix.h:30 | `resize(n)` gives n elements, keeps the old ones below both lengths, and makes every new position the default |
| VectorSemantics.ResizedToOwnSize | header/vla_fix.h:30 | resizing to the current size leaves the contents unchanged |
| VectorSemantics.ResizedFromEmpty | header/vla_fix.h:47-48 | resizing an empty vector to n gives n default elements |
| VectorSemantics.Grid | header/msvc_compat.h:164 | the nested vector `(rows, std::vector<T>(cols, v))` has rows rows of cols cells, all v |
| VectorSemantics.GridCharacterised | header/vla_utils.h:80-83 | a nested sequence has that shape and every cell v if and only if it equals the grid |
| VectorSemantics.Vector.constructor | header/msvc_compat.h:175-177 | a new vector object `std::vector<T>(n, v)` holds exactly n copies of v |
| VectorSemantics.Vector.Resize | header/vla_fix.h:30 | the new contents are the resized old contents |
| VectorSemantics.Vector.Clear | header/vla_fix.h:47 | no element remains |
| RowMajor.FlatIndex | header/msvc_compat.h:29 | the slot of cell (r, c): the r whole rows before it, then c more (equal to `r * cols + c` by RowMajor.FlatIndexIsRowMajor) |
| RowMajor.Load | header/msvc_compat.h:29 | reading cell (r, c) of a flat buffer reads slot `FlatIndex(r, c, cols)`; the slot must exist, as the headers do no bounds check |
| RowMajor.RowOffsetIsProduct | header/msvc_compat.h:29 | the slots taken by r whole rows of cols cells number exactly `r * cols` |
| RowMajor.FlatIndexIsRowMajor | header/msvc_compat.h:29 | the flat index of cell (r, c) is `r * cols + c` |
| RowMajor.FlatIndexInRange | header/msvc_compat.h:29 | for r < rows and c < cols, `r * cols + c` is below rows * cols |
| RowMajor.FlatIndexInjective | header/msvc_compat.h:29 | two cells with in-range columns share a flat index only if they are the same cell |
| RowMajor.FlatIndexOnto | header/msvc_compat.h:28-29 | every slot i of a rows * cols buffer is the index of cell (i / cols, i % cols), which is in range |
| RowMajor.Store | header/vla_fix.h:19 | writing a cell through the flat accessor keeps the buffer's length |
| RowMajor.StoreThenLoad | header/vla_fix.h:19 | after writing v to an in-range cell, that cell reads v and every other in-range cell reads what it did before |
| VlaFix.ClearArray | header/vla_fix.h:23-25 | the length is unchanged and every element is `T()`, whatever the prior contents |
| VlaFix.CopyArray | header/vla_fix.h:29-32 | afterwards dst equals src's old contents (length and every element) whatever dst held, and src is unchanged |
| VlaFix.CopyThenWriteSource | header/vla_fix.h:29-32 | for two different vectors, after `copy_array(src, dst)` a write to src leaves dst holding src's contents from before the write |
| VlaFix.ResetMatchesClear | header/vla_fix.h:45-49 | clearing then resizing to the old size gives exactly what `clear_array` gives |
| VlaFix.ResetArray | header/vla_fix.h:45-49 | the element count is kept and every element is `T()`; the result equals `clear_array`'s |
| VlaFix.ResetDeclaredVector | header/vla_fix.h:45-49 | `reset_array` on a new `std::vector<T>(size, v)` leaves `size` copies of `T()`, whatever v was |
| VlaFix.MakeSmartArray | header/vla_fix.h:39-41 | a fresh buffer of `size` elements, each value-initialised |
| VlaFix.DeclareFlatArray2D | header/vla_fix.h:18 | the buffer has rows * cols slots, all default |
| VlaFix.FlatArray2DElementAddressing | header/vla_fix.h:18-19 | each in-range cell lands inside the buffer, and two in-range cells share a slot exactly when they are the same cell |
| VlaFix.FlatArray2DWriteThenRead | header/vla_fix.h:18-19 | a fresh buffer reads the default in every cell; after one write the written cell reads the value and all others still read the default |
| VlaUtils.Vla3D | header/vla_utils.h:16 | Size1 outer entries, each Size2 rows of Size3 default cells |
| VlaUtils.CreateMatrixFixed | header/vla_utils.h:60-62 | shape Rows x Cols, every cell `T()` |
| VlaUtils.CreateMatrix | header/vla_utils.h:66-68 | shape rows x cols, every cell `T()` |
| VlaUtils.CreateMatrixFilled | header/vla_utils.h:80-83 | shape rows x cols, every cell equal to value |
| VlaUtils.FillRows | header/vla_utils.h:72-76 | the row count and each row's length are kept, ragged rows included, and every cell is value |
| VlaUtils.FillRowsCharacterised | header/vla_utils.h:72-76 | a matrix whose every row is the filled old row is the filled matrix |
| VlaUtils.InitMatrix | header/vla_utils.h:72-76 | the loop over rows leaves the matrix's rows filled with value and nothing else changed |
| VlaUtils.InitMatrixOfCreateMatrix | header/vla_utils.h:66-83 | `initMatrix(createMatrix(r, c), v)` equals `createMatrix(r, c, v)` |
| VlaUtils.InitCreatedMatrix | header/vla_utils.h:66-76 | `initMatrix(value)` on the vector object `createMatrix(rows, cols)` builds leaves it equal to `createMatrix(rows, cols, value)` |
| VlaUtils.AutoBuffer2DLengthAsWritten | header/vla_utils.h:21 | the slot count `new Type[Size1 * Size2]` yields once unparenthesised arguments are pasted in: `a + b * y` for sizes `a + b` and `y` |
| VlaUtils.AutoBuffer2DLength | header/vla_utils.h:21 | the slot count the macro is meant to allocate: the product of the two size values |
| VlaUtils.AutoBuffer2DAtomsAgree | header/vla_utils.h:21 | with single-operand sizes the buffer as written has Size1 * Size2 slots |
| VlaUtils.AutoBuffer2DCompoundSizeOverruns | header/vla_utils.h:21 | sizes `1 + 1` and `2` give a 3-slot buffer in which cell (1, 1) of the 2 x 2 array is out of range |
| VlaUtils.AutoBuffer2DCompoundSizeShort | header/vla_utils.h:21 | whenever Size1 is a sum with a positive left operand and Size2 > 1, the buffer as written is smaller than intended |
| VlaUtils.AutoAt2DAddressing | header/vla_utils.h:21-26 | with Width == Size2, each in-range `VLA_AT_AUTO_2D` index lies inside the intended `Size1 * Size2` buffer and distinct cells get distinct slots |
| MsvcCompat.Create2DArray | header/msvc_compat.h:157-159 | a rows x cols grid of `T()` |
| MsvcCompat.Create2DArrayFilled | header/msvc_compat.h:163-165 | a rows x cols grid of initValue |
| MsvcCompat.CreateArray | header/msvc_compat.h:169-171 | exactly size elements, each `T()` |
| MsvcCompat.CreateArrayFilled | header/msvc_compat.h:175-177 | exactly size elements, each initValue |
| MsvcCompat.ArraySizeMsvc | header/msvc_compat.h:44 | the result is always at least 1, equals size when size is positive and is 1 otherwise |
| MsvcCompat.ArraySizeOther | header/msvc_compat.h:110 | the non-MSVC `ARRAY_SIZE` returns its argument unchanged |
| MsvcCompat.ArraySizeBranchesAgree | header/msvc_compat.h:110 | the non-MSVC `ARRAY_SIZE` (the identity) and the MSVC one agree on a size exactly when it is positive |
| MsvcCompat.ArraySizeMsvcIdempotent | header/msvc_compat.h:44 | clamping a clamped size changes nothing |
| MsvcCompat.VlaFlat2D | header/msvc_compat.h:28 | the buffer has rows * cols slots, all default |
| MsvcCompat.VlaFlat2DAtAddressing | header/msvc_compat.h:28-29 | each in-range `VLA_FLAT_2D_AT` index lies inside the buffer, and distinct cells get distinct slots |

## Left out

- `compat::safeStof`, `compat::safeStod`, `compat::stof`, `compat::stod` and the `COMPAT_STOF`/`COMPAT_STOD`/`COMPAT_STOI` macros: floating-point and integer text parsing delegated to the C++ library, with exceptions as the failure path.
- `round`: floating-point arithmetic.
- `GET_VECTOR`, `COMPAT_GETVECTOR1`/`COMPAT_GETVECTOR2` and `extern vertex Zero`: they call `GetVector` and use `vertex`, which are not part of this model.
- `TRY_CATCH`: exception handling and writes to `std::cerr`.
- Ownership and lifetime: `SMART_ARRAY`, `VLA_AUTO_ARRAY` and `SmartArray` as `unique_ptr` owners, the `new`/`delete` macros of `cmake_config.h`, and `INT_ARRAY` as raw `new int[size]`. Only the contents of `make_smart_array` are modelled; the returned Dafny array stands for the owned buffer.
- `VLA_AUTO_2D` contents: `new Type[n]` default-initialises, which leaves scalar elements indeterminate; only the buffer's length and its addressing are modelled.
- The GCC-branch native VLA declarations, the type-specific declaration one-liners (`PATH_CORNER_ARRAY`, `CHAR_VLA`, `STRING_ARRAY`, ...), the nested-vector declaration and access macros, and the empty `VLA_ALLOC_*` macros: declaration syntax whose only behaviour is "an array of that shape"; the shapes they produce are the vectors modelled here.
- `IF_MSVC`, `IF_NOT_MSVC`, `NO_DIRENT`, `typedef int btable` and the conflicting macro redefinitions across headers: preprocessor-level concerns.
- Bounds checking: the headers make none. Valid indices are preconditions (`requires` on `RowMajor.Load` and `RowMajor.Store`), not modelled errors.
- Allocation failure and `size_t` limits: a size beyond `max_size()` throws `std::length_error` or `std::bad_alloc`; sizes are unbounded `nat` here.
- Integer overflow of the flat-buffer size: `(rows) * (cols)` in `DECLARE_FLAT_ARRAY_2D` (vla_fix.h:18) and `VLA_FLAT_2D` (msvc_compat.h:28), and `Size1 * Size2` in `VLA_AUTO_2D`, are computed in the caller's integer type. With `int` arguments an overflowing product is undefined behaviour, and in practice wraps to a short buffer. The index lemmas hold in unbounded arithmetic only.
- VlaUtils.CreateMatrixFixed: the template parameters `Rows` and `Cols` are `int`; a negative one converts to a huge `size_t` and the vector constructor throws. The model takes them as `nat`.
- VlaFix.CopyArray: for a non-empty `v`, `copy_array(v, v)` hands `std::copy` an output range that starts inside its input range, which breaks std::copy's precondition; the model gives it the result of assigning each element to itself, so `v` is unchanged. For an empty `v` both ranges are empty and the call is well defined.
- MsvcCompat.ArraySizeMsvc: the macro pastes `size` unparenthesised and evaluates it twice, while the model takes the argument's value. So `ARRAY_SIZE(flags & mask)` expands to `((flags & mask > 0) ? flags & mask : 1)`, which with flags == 2 and mask == 3 gives 1 where the value reading gives 2. And `ARRAY_SIZE(n++)` increments n twice when n is positive. Neither effect is modelled.
- MsvcCompat.ArraySizeOther: the non-MSVC `ARRAY_SIZE(size)` expands to `size` with no parentheses around it, so at a use site such as `ARRAY_SIZE(n + 1) * 2` it becomes `n + 1 * 2`, where the value reading gives `(n + 1) * 2`. The model gives the macro the argument's value and does not capture this.
- Deep copy after `copy_array` holds only when `src` and `dst` are different vectors; VlaFix.CopyThenWriteSource states it under that condition (a later write to `src` does not reach `dst`).

## Findings

| source | as written | input that shows it | evidently intended | confidence | as-written member | corrected member |
|---|---|---|---|---|---|---|
| header/vla_utils.h:21 | `VLA_AUTO_2D` allocates `new Type[Size1 * Size2]` with the arguments unparenthesised, so a compound size such as `n + 1` becomes `n + 1 * Size2` | `VLA_AUTO_2D(int, buf, n + 1, 2)` with n == 1 allocates 3 slots; `VLA_AT_AUTO_2D(buf, 1, 1, 2)` then addresses slot 3 | `new Type[(Size1) * (Size2)]`, as `DECLARE_FLAT_ARRAY_2D` and `VLA_FLAT_2D` write it | medium; not executed | VlaUtils.AutoBuffer2DCompoundSizeOverruns | VlaUtils.AutoAt2DAddressing |
