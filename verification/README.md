# Dynamic vector and matrix, modelled in Dafny

This project models the two containers of the `tmatrix.h` header:

- `TDynamicVector<T>` is a vector that owns a heap buffer of `sz` elements, with `1 <= sz <= 100000000`.
- `TDynamicMatrix<T>` is a square `sz x sz` matrix, with `1 <= sz <= 10000`, stored as `sz` row vectors.

The element type `T` is instantiated as `int`.

Both containers are imperative in the C++ code, and the model keeps that form:

- `DynamicVector.Vector` is a class over an `array<int>`.
- `DynamicMatrix.Matrix` is a class over an `array<Vector>`, in which every row owns its own buffer.
- The arithmetic operators copy or allocate a result and then fill it with `for` loops. Their invariants tie each loop to the pure functions of `VectorMath` and `MatrixMath`.
- Every method's `ensures` relates the new object, or the result, to those functions applied to the abstract value of its inputs:
  - `Vector.Elements()` is the elements in index order;
  - `Matrix.Cells()` is the rows, in order.
- The two exception kinds, `out_of_range` and `invalid_argument`, become `Result`/`Outcome` values (`wrappers.dfy`). The condition under which each operation fails is stated as an if-and-only-if.

Properties proved about the specification functions:

- subtraction undoes addition, for vectors, scalars and matrices;
- the dot product is commutative and linear;
- the identity matrix is a unit of the product on both sides;
- a scalar factor on either operand moves out of the product, and the product distributes over a sum in either operand;
- the matrix-times-vector operator equals the conventional product with the transposed matrix, and an example shows the two contractions differ;
- the concrete values the unit tests check.

Files:

- `wrappers.dfy`: the error kinds and the result shapes.
- `vector_math.dfy`: the value-level meaning of the vector operations.
- `matrix_math.dfy`: the value-level meaning of the matrix operations.
- `dynamic_vector.dfy`: the class `Vector` and its operators.
- `dynamic_matrix.dfy`: the class `Matrix` and its operators.

`VectorMath.ScalarAndDotOracles` proves that the dot product of `[1,2,3,4]` and `[123,534,756,3]` is 3471, the value the test at test/test_tvector.cpp:207-219 expects as the sum of `(i + 1) * s[i]`.

## Model

| member | source | states |
|---|---|---|
| VectorMath.Zeros | include/tmatrix.h:35 | `new T[n]()` gives n elements, each equal to `T()`, which is 0 |
| VectorMath.AddScalar | include/tmatrix.h:130-131 | the result of vector plus scalar: element i is `a[i] + c`, same length |
| VectorMath.SubScalar | include/tmatrix.h:138-139 | the result of vector minus scalar: element i is `a[i] - c`, same length |
| VectorMath.MulScalar | include/tmatrix.h:146-147 | the result of vector times scalar: element i is `a[i] * c`, same length |
| VectorMath.Add | include/tmatrix.h:159-160 | the result of vector plus vector: element i is `a[i] + b[i]` |
| VectorMath.Sub | include/tmatrix.h:170-171 | the result of vector minus vector: element i is `a[i] - b[i]` |
| VectorMath.Dot | include/tmatrix.h:180-183 | the dot product, the sum of `a[i] * b[i]` taken from index 0 upwards starting at 0 |
| VectorMath.DotStep | include/tmatrix.h:180-183 | one more iteration of the accumulation loop adds `a[k] * b[k]` to the dot product of the first k elements |
| VectorMath.SubScalarUndoesAddScalar | include/tmatrix.h:127-142 | subtracting a scalar undoes adding the same scalar |
| VectorMath.SubUndoesAdd | include/tmatrix.h:153-174 | vector subtraction undoes vector addition |
| VectorMath.DotCommutes | include/tmatrix.h:175-186 | the dot product is symmetric in its operands |
| VectorMath.DotAddLeft | include/tmatrix.h:175-186 | the dot product distributes over vector addition |
| VectorMath.DotMulScalarLeft | include/tmatrix.h:175-186 | scaling one operand scales the dot product by the same factor |
| VectorMath.DotZeros | include/tmatrix.h:180-183 | the dot product with zeros is 0, the accumulator's starting value `T()` |
| VectorMath.DotUnit | include/tmatrix.h:175-186 | the dot product with the j-th unit vector selects element j |
| VectorMath.ScalarAndDotOracles | test/test_tvector.cpp:133-219 | `[123,534,756,3]` plus 4, minus 4 and times 7 give the tested vectors; its dot product with `[1,2,3,4]` is 3471 |
| MatrixMath.Column | include/tmatrix.h:319 | column j of a matrix, the elements `m[k][j]` the product reads as k runs |
| MatrixMath.MatAdd | include/tmatrix.h:290-292 | the result of matrix plus matrix: cell (i, j) is `a[i][j] + b[i][j]` |
| MatrixMath.MatSub | include/tmatrix.h:303-305 | the result of matrix minus matrix: cell (i, j) is `a[i][j] - b[i][j]` |
| MatrixMath.MatScale | include/tmatrix.h:262-264 | the result of matrix times scalar: every cell multiplied by c |
| MatrixMath.MatMul | include/tmatrix.h:316-319 | the product: cell (i, j) is the dot product of row i of a with column j of b |
| MatrixMath.VecMat | include/tmatrix.h:276-279 | the result of the matrix-times-vector operator: element i is the dot product of v with column i of m, that is `sum_j v[j] * m[j][i]` |
| MatrixMath.ZeroMatrix | include/tmatrix.h:218-228 | a freshly built matrix is n x n with every cell 0 |
| MatrixMath.VecMatIsMatVecOfTranspose | include/tmatrix.h:269-281 | the matrix-times-vector operator, `r[i] = sum_j v[j] * m[j][i]`, equals the conventional product of the transposed matrix with v |
| MatrixMath.VecMatDiffersFromMatVec | include/tmatrix.h:276-279 | for m = [[0,1],[0,0]] and v = [1,0] the operator gives [0,1] where the conventional product gives [0,0] |
| MatrixMath.VecMatIdentity | include/tmatrix.h:269-281 | the matrix-times-vector operator with the identity returns v |
| MatrixMath.SubUndoesMatAdd | include/tmatrix.h:284-308 | matrix subtraction undoes matrix addition |
| MatrixMath.OperationsKeepSquare | include/tmatrix.h:259-322 | sum, difference, scaling and product of n x n matrices are n x n |
| MatrixMath.MatMulIdentityRight | include/tmatrix.h:310-322 | the product with the identity on the right returns the matrix |
| MatrixMath.MatMulIdentityLeft | include/tmatrix.h:310-322 | the product with the identity on the left returns the matrix |
| MatrixMath.MatMulScaleLeft | include/tmatrix.h:310-322 | a scalar factor on the left operand moves out of the product |
| MatrixMath.MatMulAddLeft | include/tmatrix.h:310-322 | the product distributes over a sum in its left operand |
| MatrixMath.MatMulScaleRight | include/tmatrix.h:310-322 | a scalar factor on the right operand moves out of the product |
| MatrixMath.MatMulAddRight | include/tmatrix.h:310-322 | the product distributes over a sum in its right operand |
| MatrixMath.ProductExample | include/tmatrix.h:310-322 | a worked example: [[1,2],[3,4]] times [[5,6],[7,8]] is [[19,22],[43,50]] |
| MatrixMath.SumAndDifferenceOracle | test/test_tmatrix.cpp:172-230 | the 5 x 5 grid `5i + j` plus all ones, and minus all twos, give the matrices the tests expect |
| DynamicVector.CopyElements | include/tmatrix.h:44 | the element copy `std::copy` performs, front to back: the first n elements of the source are written over the destination and the rest of the destination is kept; with source and destination the same buffer (as `v = v` reaches include/tmatrix.h:65) the contents stay as they were |
| DynamicVector.Vector.Zeroed | include/tmatrix.h:35 | the allocation gives a valid vector of n zeros in a fresh buffer |
| DynamicVector.Vector.Create | include/tmatrix.h:27-36 | n defaults to 1; fails with out_of_range iff n <= 0 or n > 100000000; otherwise a fresh vector of n zeros |
| DynamicVector.Vector.FromBuffer | include/tmatrix.h:37-45 | fails with out_of_range iff s > 100000000, whatever the buffer's length; otherwise a fresh vector holding `arr[0..s)` |
| DynamicVector.Vector.Copy | include/tmatrix.h:46 | the copy has the source's elements in a buffer of its own |
| DynamicVector.Vector.Assign | include/tmatrix.h:57-67 | afterwards the receiver has the source's size and elements, and the source is unchanged; the buffer is reused iff the sizes were equal; `v = v` keeps the contents |
| DynamicVector.Vector.Size | include/tmatrix.h:75 | the size is the number of elements and lies in 1..100000000 |
| DynamicVector.Vector.Get | include/tmatrix.h:78-85 | `v[i]` reads element i |
| DynamicVector.Vector.Set | include/tmatrix.h:78-81 | a write through `v[i]` changes element i and nothing else |
| DynamicVector.Vector.At | include/tmatrix.h:97-106 | `at(i)` fails with out_of_range iff i < 0 or i >= size; otherwise it returns element i |
| DynamicVector.Vector.SetAt | include/tmatrix.h:87-96 | a write through `at(i)` fails with out_of_range iff i is out of range, and then nothing changes; otherwise only element i changes |
| DynamicVector.Vector.Equal | include/tmatrix.h:109-116 | `==` holds iff the sizes and all elements are equal |
| DynamicVector.Vector.NotEqual | include/tmatrix.h:117-124 | `!=` holds iff `==` does not |
| DynamicVector.Vector.AddScalar | include/tmatrix.h:127-134 | a fresh vector with `res[i] = a[i] + val`; the receiver is unchanged |
| DynamicVector.Vector.SubScalar | include/tmatrix.h:135-142 | a fresh vector with `res[i] = a[i] - val`; the receiver is unchanged |
| DynamicVector.Vector.MulScalar | include/tmatrix.h:143-150 | a fresh vector with `res[i] = a[i] * val`; the receiver is unchanged |
| DynamicVector.Vector.Add | include/tmatrix.h:153-163 | fails with invalid_argument iff the sizes differ; otherwise a fresh vector of element-wise sums |
| DynamicVector.Vector.Sub | include/tmatrix.h:164-174 | fails with invalid_argument iff the sizes differ; otherwise a fresh vector of element-wise differences |
| DynamicVector.Vector.Dot | include/tmatrix.h:175-186 | fails with invalid_argument iff the sizes differ; otherwise the sum of `a[i] * v[i]`, accumulated from 0 |
| DynamicVector.Swap | include/tmatrix.h:188-192 | the two vectors exchange size, buffer and therefore contents |
| DynamicVector.CopyHasOwnMemory | test/test_tvector.cpp:35-42 | writing to a copy changes the copy only; the source keeps its elements |
| DynamicVector.CompareWithItself | test/test_tvector.cpp:116-122 | a vector is `==` to itself and not `!=` to itself |
| DynamicMatrix.Matrix.Cells | include/tmatrix.h:213-216 | the rows form an sz x sz matrix whose row i is the buffer of row vector i |
| DynamicMatrix.Matrix.Zeroed | include/tmatrix.h:226-227 | the allocation gives n fresh rows, each n zeros in its own fresh buffer |
| DynamicMatrix.Matrix.Create | include/tmatrix.h:218-228 | s defaults to 1; fails with out_of_range iff s <= 0 or s > 10000; otherwise an s x s zero matrix |
| DynamicMatrix.Matrix.Copy | include/tmatrix.h:229-233 | the copy has the source's cells, in fresh rows with fresh buffers |
| DynamicMatrix.Matrix.Assign | include/tmatrix.h:57-67 | the assignment the matrix inherits: afterwards the receiver has the source's size and cells, and the source is unchanged; the row array is kept iff the sizes were equal; `m = m` keeps the contents |
| DynamicMatrix.Matrix.AssignRows | include/tmatrix.h:65 | copying the rows one by one makes the receiver valid, with the source's cells, and leaves the source intact, self-assignment included |
| DynamicMatrix.Matrix.AssignRowAt | include/tmatrix.h:65 | one row assignment extends the assigned prefix by one row and keeps every other row and all of the source intact |
| DynamicMatrix.Matrix.CopiedRowsGiveCells | include/tmatrix.h:65 | once every row is assigned, both matrices are valid and hold the source's cells |
| DynamicMatrix.Matrix.ResetRows | include/tmatrix.h:59-64 | when the sizes differ, n fresh default rows of length 1, each with its own buffer, replace the old rows |
| DynamicMatrix.Matrix.Size | include/tmatrix.h:236 | the size is the number of rows and the length of every row, in 1..10000 |
| DynamicMatrix.Matrix.Get | include/tmatrix.h:234 | `m[i][j]` reads cell (i, j) |
| DynamicMatrix.Matrix.Set | include/tmatrix.h:234 | a write through `m[i][j]` changes cell (i, j) and nothing else |
| DynamicMatrix.Matrix.At | include/tmatrix.h:235 | `m.at(i).at(j)` fails with out_of_range iff i or j is out of range; otherwise it returns cell (i, j) |
| DynamicMatrix.Matrix.SetAt | include/tmatrix.h:235 | a write through `m.at(i).at(j)` fails with out_of_range iff an index is out of range, and then nothing changes; otherwise only that cell changes |
| DynamicMatrix.Matrix.Equal | include/tmatrix.h:239-247 | `==` holds iff the sizes and all cells are equal |
| DynamicMatrix.Matrix.NotEqual | include/tmatrix.h:248-256 | `!=` holds iff `==` does not |
| DynamicMatrix.Matrix.MulScalar | include/tmatrix.h:259-266 | a fresh copy with every cell multiplied by val; the receiver is unchanged |
| DynamicMatrix.ScaleRow | include/tmatrix.h:263-264 | every element of a row is multiplied by val in place |
| DynamicMatrix.Matrix.MulVector | include/tmatrix.h:269-281 | fails with invalid_argument iff `v.size() != sz`; otherwise a fresh vector with `r[i] = sum_j v[j] * m[j][i]` |
| DynamicMatrix.Matrix.AccumulateColumn | include/tmatrix.h:277-279 | the inner loop adds `sum_j v[j] * m[j][i]` to element i and changes no other element |
| DynamicMatrix.Matrix.Add | include/tmatrix.h:284-295 | fails with invalid_argument iff the sizes differ; otherwise a fresh matrix of cell-wise sums |
| DynamicMatrix.Matrix.AddInto | include/tmatrix.h:290-292 | the double loop fills the result with the cell-wise sums |
| DynamicMatrix.Matrix.AddRow | include/tmatrix.h:291-292 | the inner loop sets row i of the result to the sum of the operands' rows i |
| DynamicMatrix.Matrix.Sub | include/tmatrix.h:297-308 | fails with invalid_argument iff the sizes differ; otherwise a fresh matrix of cell-wise differences |
| DynamicMatrix.Matrix.SubInto | include/tmatrix.h:303-305 | the double loop fills the result with the cell-wise differences |
| DynamicMatrix.Matrix.SubRow | include/tmatrix.h:304-305 | the inner loop sets row i of the result to the difference of the operands' rows i |
| DynamicMatrix.Matrix.Mul | include/tmatrix.h:310-322 | fails with invalid_argument iff the sizes differ; otherwise a fresh matrix with `r[i][j] = sum_k a[i][k] * m[k][j]` |
| DynamicMatrix.Matrix.MulInto | include/tmatrix.h:316-319 | the triple loop turns the zero result into the product |
| DynamicMatrix.Matrix.MulRow | include/tmatrix.h:317-319 | the middle loop turns a zero row into row i of the product |
| DynamicMatrix.Matrix.AccumulateProduct | include/tmatrix.h:318-319 | the innermost loop adds `sum_k a[i][k] * m[k][j]` to cell j and changes no other cell |
| DynamicMatrix.CopyHasOwnRows | test/test_tmatrix.cpp:33-40 | writing a cell of a copied matrix changes the copy only; the source keeps its cells |
| DynamicMatrix.CompareWithItself | test/test_tmatrix.cpp:142-154 | a matrix is `==` to itself and not `!=` to itself |

## Left out

- Stream input and output (`operator>>` and `operator<<`, include/tmatrix.h:195-206 and 325-342). These are I/O and depend on the text format of `T`.
- Move constructor and move assignment (include/tmatrix.h:47-52, 68-73). These transfer raw-pointer ownership, which has no counterpart in a garbage-collected model. Copy construction and copy assignment are modelled.
- Destructor (include/tmatrix.h:53-56). Memory is reclaimed by the runtime in the model.
- `assert(arr != nullptr)` (include/tmatrix.h:39). An `array<int>` reference is never null.
- `T` other than `int`, and fixed-width overflow. The elements are unbounded integers, so a sum or product that would overflow a 32-bit `int` in C++ does not wrap in the model.
- The `size_t` overload of the const `operator[]` (include/tmatrix.h:82-85) is not modelled separately. It reads the same element as `Vector.Get`.
- Private inheritance (include/tmatrix.h:213-216, 234-235). The matrix is modelled by composition, as an array of row vectors. Cell access through `m[i][j]` and `m.at(i).at(j)` is restated on `Matrix` as `Get`, `Set`, `At` and `SetAt`, and the inherited copy assignment as `Assign`.
- Row-level access (include/tmatrix.h:234-235) is not modelled. `m[i]` and `m.at(i)` return a mutable `TDynamicVector<T>&`, so C++ code may assign a row of another length, for example `m[i] = TDynamicVector<int>(k)` with `k != sz`. That makes the matrix ragged, and `==`, `!=` and the arithmetic operators then read past the end of the short rows (for example at include/tmatrix.h:244). `Matrix.Valid()` excludes such a state, so the model only describes square matrices.
- Overlapping `std::copy` under self-assignment (include/tmatrix.h:65). For `v = v` the destination is the first element of the source range, which `std::copy`'s own contract does not allow. `DynamicVector.CopyElements` models the front-to-back element copy that implementations perform and that test/test_tvector.cpp:72-78 expects, under which the contents stay unchanged.
- The console demo under samples/ is not part of this model.
- DynamicVector.Vector.FromBuffer: requires `1 <= s`, so two behaviours of the C++ constructor at include/tmatrix.h:37-45 are not modelled. It does not check `s <= 0`. With `s == 0`, `new T[0]` succeeds and builds a vector with `sz == 0`, outside the range 1..100000000 that every other constructor keeps. With `s < 0`, the new-expression at include/tmatrix.h:43 throws `std::bad_array_new_length`.
- DynamicMatrix.Matrix.Assign: requires the receiver and the source to be the same matrix or to share no row object and no row buffer. In C++ every matrix owns its rows by value, so two distinct matrices never share them; the model's reference arrays could alias, and the precondition rules that out.
- Allocation failure (`std::bad_alloc`) is not modelled: allocation always succeeds.
