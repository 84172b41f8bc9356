/** TDynamicMatrix<int>: a square matrix held as sz row vectors of sz
    elements each, every row owning its own buffer. */
module DynamicMatrix {
  import opened Wrappers
  import VectorMath
  import MatrixMath
  import opened DynamicVector

  const MaxMatrixSize := 10000

  class Matrix {
    var sz: int
    var rows: array<Vector>

    /** sz is in range, there are sz rows, each a valid vector of length sz,
        and no two rows share a buffer. */
    ghost predicate Valid()
      reads this, rows, rows[..]
    {
      1 <= sz <= MaxMatrixSize && rows.Length == sz &&
      (forall i :: 0 <= i < sz ==> rows[i].Valid() && rows[i].sz == sz) &&
      (forall i, j :: 0 <= i < sz && 0 <= j < sz && i != j ==> rows[i].mem != rows[j].mem)
    }

    /** The row buffers, where the cells live. */
    ghost function Buffers(): set<array<int>>
      reads this, rows, rows[..]
    {
      set i | 0 <= i < rows.Length :: rows[i].mem
    }

    /** The abstract value: the rows' elements, row by row. */
    ghost function Cells(): (c: seq<seq<int>>)
      requires Valid()
      reads this, rows, rows[..], Buffers()
      ensures MatrixMath.IsSquare(c, sz)
      ensures forall i :: 0 <= i < sz ==> c[i] == rows[i].mem[..]
    {
      seq(sz, i requires 0 <= i < rows.Length reads this, rows, rows[..], Buffers() => rows[i].mem[..])
    }

    /** The allocation once the size checks have passed: n fresh rows, each
        of n zero elements. */
    constructor Zeroed(n: int)
      requires 1 <= n <= MaxMatrixSize
      ensures Valid() && fresh(rows)
      ensures forall i :: 0 <= i < sz ==> fresh(rows[i]) && fresh(rows[i].mem)
      ensures Cells() == MatrixMath.ZeroMatrix(n)
    {
      var rs: seq<Vector> := [];
      for i := 0 to n
        invariant |rs| == i
        invariant forall k :: 0 <= k < i ==>
          fresh(rs[k]) && fresh(rs[k].mem) && rs[k].Valid() && rs[k].sz == n &&
          rs[k].Elements() == VectorMath.Zeros(n)
        invariant forall k, l :: 0 <= k < i && 0 <= l < i && k != l ==> rs[k].mem != rs[l].mem
      {
        var row := new Vector.Zeroed(n);
        rs := rs + [row];
      }
      sz := n;
      rows := new Vector[n](i requires 0 <= i < n => rs[i]);
    }

    /** TDynamicMatrix(int s = 1): out_of_range unless 1 <= s <= 10000 (the
        vector-of-rows base rejects s <= 0 and s > 100000000 first, then the
        matrix rejects s > 10000); otherwise an s x s matrix of zeros. */
    static method Create(s: int := 1) returns (r: Result<Matrix>)
      ensures r.Err? <==> s <= 0 || s > MaxMatrixSize
      ensures r.Err? ==> r.error == OutOfRange
      ensures r.Ok? ==> r.value.Valid() && fresh(r.value) && fresh(r.value.rows)
      ensures r.Ok? ==> forall i :: 0 <= i < r.value.sz ==>
                          fresh(r.value.rows[i]) && fresh(r.value.rows[i].mem)
      ensures r.Ok? ==> r.value.Cells() == MatrixMath.ZeroMatrix(s)
    {
      if s <= 0 || s > MaxVectorSize {
        return Err(OutOfRange);
      }
      if s > MaxMatrixSize {
        return Err(OutOfRange);
      }
      var m := new Matrix.Zeroed(s);
      return Ok(m);
    }

    /** The copy constructor: the base allocates m.sz rows of the default
        length 1, then each row is copy-assigned from m's row, so every row
        ends up with its own buffer holding m's elements. */
    constructor Copy(m: Matrix)
      requires m.Valid()
      ensures Valid() && fresh(rows)
      ensures forall i :: 0 <= i < sz ==> fresh(rows[i]) && fresh(rows[i].mem)
      ensures Cells() == m.Cells()
    {
      var rs: seq<Vector> := [];
      for i := 0 to m.sz
        invariant |rs| == i
        invariant forall k :: 0 <= k < i ==>
          fresh(rs[k]) && fresh(rs[k].mem) && rs[k].Valid() && rs[k].sz == m.sz &&
          rs[k].Elements() == m.rows[k].Elements()
        invariant forall k, l :: 0 <= k < i && 0 <= l < i && k != l ==> rs[k].mem != rs[l].mem
      {
        var row := new Vector.Zeroed(1);
        row.Assign(m.rows[i]);
        rs := rs + [row];
      }
      var n := m.sz;
      sz := n;
      rows := new Vector[n](i requires 0 <= i < n => rs[i]);
    }

    /** Neither matrix holds a row object or a row buffer of the other. The
        C++ matrix keeps its rows by value, so two distinct matrices never
        share them. */
    ghost predicate SharesNothingWith(m: Matrix)
      reads this, rows, rows[..], m, m.rows, m.rows[..]
    {
      rows != m.rows &&
      forall k, l :: 0 <= k < rows.Length && 0 <= l < m.rows.Length ==>
        rows[k] != m.rows[l] && rows[k].mem != m.rows[l].mem
    }

    /** Copy assignment `*this = m`, the one the matrix inherits from its
        vector-of-rows base: when the sizes differ, m.sz fresh default rows
        of length 1 replace the old ones; then every row is copy-assigned
        from m's row. m itself is left as it was, and `m = m` changes
        nothing. */
    method Assign(m: Matrix)
      requires Valid() && m.Valid()
      requires this == m || SharesNothingWith(m)
      modifies this, rows, rows[..], Buffers()
      ensures Valid() && sz == old(m.sz)
      ensures Cells() == old(m.Cells())
      ensures m.Valid() && m.Cells() == old(m.Cells())
      ensures old(sz) == old(m.sz) ==> rows == old(rows)
      ensures old(sz) != old(m.sz) ==> fresh(rows)
    {
      if sz != m.sz {
        ResetRows(m.sz);
      }
      AssignRows(m);
    }

    /** The element-wise part of the assignment (std::copy over the rows):
        row i is copy-assigned from m's row i, for every i. The rows already
        number m.sz but may still have the default length 1. */
    method AssignRows(m: Matrix)
      requires m.Valid() && sz == m.sz && rows.Length == sz
      requires forall k :: 0 <= k < sz ==> rows[k].Valid()
      requires forall k, l :: 0 <= k < sz && 0 <= l < sz && k != l ==> rows[k].mem != rows[l].mem
      requires forall k, l :: 0 <= k < sz && 0 <= l < sz && k != l ==> rows[k].mem != m.rows[l].mem
      requires forall k :: 0 <= k < sz ==> rows[k] == m.rows[k] || rows[k].mem != m.rows[k].mem
      modifies rows[..], Buffers()
      ensures Valid() && Cells() == old(m.Cells())
      ensures m.Valid() && m.Cells() == old(m.Cells())
    {
      ghost var M := m.Cells();
      ghost var Mems := seq(sz, k requires 0 <= k < rows.Length reads this, rows, rows[..] => rows[k].mem);
      for i := 0 to sz
        modifies rows[..], Mems
        invariant RowsCopied(rows, m.rows, sz, i, Mems, M)
      {
        AssignRowAt(rows, m.rows, sz, i, Mems, M);
      }
      CopiedRowsGiveCells(m, Mems, M);
    }

    /** Where the row-by-row assignment stands after i rows: the rows not
        yet assigned still have their old buffers, rows before i hold m's
        rows, m's rows are intact, and no buffer is shared where it must not
        be (a row may only be m's own row, under self-assignment). */
    static ghost predicate RowsCopied(rs: array<Vector>, ms: array<Vector>, n: int, i: int,
                                      Mems: seq<array<int>>, M: seq<seq<int>>)
      reads rs, ms, rs[..], ms[..]
      reads set k | 0 <= k < rs.Length :: rs[k].mem
      reads set k | 0 <= k < ms.Length :: ms[k].mem
    {
      rs.Length == n && ms.Length == n && |Mems| == n && |M| == n && 0 <= i <= n &&
      (forall k :: i <= k < n ==> rs[k].mem == Mems[k]) &&
      (forall k :: 0 <= k < n ==> rs[k].Valid()) &&
      (forall k, l :: 0 <= k < n && 0 <= l < n && k != l ==> rs[k].mem != rs[l].mem) &&
      (forall k :: 0 <= k < i ==> rs[k].sz == n && rs[k].Elements() == M[k]) &&
      (forall k :: 0 <= k < n ==> ms[k].Valid() && ms[k].sz == n && ms[k].Elements() == M[k]) &&
      (forall k, l :: 0 <= k < n && 0 <= l < n && k != l ==> ms[k].mem != ms[l].mem) &&
      (forall k, l :: 0 <= k < n && 0 <= l < n && k != l ==> rs[k].mem != ms[l].mem) &&
      (forall k :: 0 <= k < n ==> rs[k] == ms[k] || rs[k].mem != ms[k].mem)
    }

    /** Once every row is assigned, both matrices are valid and hold M. */
    lemma CopiedRowsGiveCells(m: Matrix, Mems: seq<array<int>>, M: seq<seq<int>>)
      requires 1 <= sz <= MaxMatrixSize && m.sz == sz
      requires RowsCopied(rows, m.rows, sz, sz, Mems, M)
      ensures Valid() && Cells() == M
      ensures m.Valid() && m.Cells() == M
    {
      assert forall k :: 0 <= k < sz ==> m.Cells()[k] == M[k];
      assert forall k :: 0 <= k < sz ==> Cells()[k] == M[k];
    }

    /** One step of the row-by-row assignment: rs[i] = ms[i]. */
    static method AssignRowAt(rs: array<Vector>, ms: array<Vector>, n: int, i: int,
                              ghost Mems: seq<array<int>>, ghost M: seq<seq<int>>)
      requires RowsCopied(rs, ms, n, i, Mems, M) && i < n
      modifies rs[i], rs[i].mem
      ensures RowsCopied(rs, ms, n, i + 1, Mems, M)
    {
      ghost var r := rs[i];
      assert forall k :: 0 <= k < n && k != i ==> rs[k] != r && ms[k] != r;
      rs[i].Assign(ms[i]);
    }

    /** The base's reallocation `new T[n]()`: n fresh default rows of length
        1 (so not yet a valid n x n matrix) replace the old ones. */
    method ResetRows(n: int)
      requires 1 <= n <= MaxMatrixSize
      modifies this
      ensures sz == n && fresh(rows) && rows.Length == n
      ensures forall k :: 0 <= k < n ==> fresh(rows[k]) && fresh(rows[k].mem) && rows[k].Valid() && rows[k].sz == 1
      ensures forall k, l :: 0 <= k < n && 0 <= l < n && k != l ==> rows[k].mem != rows[l].mem
    {
      var rs: seq<Vector> := [];
      for i := 0 to n
        invariant |rs| == i
        invariant forall k :: 0 <= k < i ==> fresh(rs[k]) && fresh(rs[k].mem) && rs[k].Valid() && rs[k].sz == 1
        invariant forall k, l :: 0 <= k < i && 0 <= l < i && k != l ==> rs[k].mem != rs[l].mem
      {
        var row := new Vector.Zeroed(1);
        rs := rs + [row];
      }
      sz := n;
      rows := new Vector[n](i requires 0 <= i < n => rs[i]);
    }

    /** size(): the number of rows, which is also the length of each row. */
    function Size(): (n: int)
      requires Valid()
      reads this, rows, rows[..], Buffers()
      ensures n == |Cells()| && 1 <= n <= MaxMatrixSize
      ensures forall i :: 0 <= i < n ==> |Cells()[i]| == n
    {
      sz
    }

    /** Unchecked read `m[i][j]`. */
    function Get(i: int, j: int): (x: int)
      requires Valid() && 0 <= i < sz && 0 <= j < sz
      reads this, rows, rows[..], Buffers()
      ensures x == Cells()[i][j]
    {
      rows[i].mem[j]
    }

    /** Unchecked write `m[i][j] = x`: only that cell changes. */
    method Set(i: int, j: int, x: int)
      requires Valid() && 0 <= i < sz && 0 <= j < sz
      modifies rows[i].mem
      ensures Valid()
      ensures Cells() == old(Cells())[i := old(Cells())[i][j := x]]
    {
      rows[i].mem[j] := x;
    }

    /** Checked read `m.at(i).at(j)`: out_of_range from the row access when
        i is out of range, else from the element access when j is. */
    function At(i: int, j: int): (r: Result<int>)
      requires Valid()
      reads this, rows, rows[..], Buffers()
      ensures r.Err? <==> !(0 <= i < |Cells()| && 0 <= j < |Cells()|)
      ensures r.Err? ==> r.error == OutOfRange
      ensures r.Ok? ==> r.value == Cells()[i][j]
    {
      if i < 0 || i >= sz then Err(OutOfRange)
      else rows[i].At(j)
    }

    /** Checked write `m.at(i).at(j) = x`: out_of_range when either index
        is out of range, and then nothing changes; otherwise only cell
        (i, j) changes. */
    method SetAt(i: int, j: int, x: int) returns (o: Outcome)
      requires Valid()
      modifies Buffers()
      ensures Valid()
      ensures o.Fail? <==> !(0 <= i < sz && 0 <= j < sz)
      ensures o.Fail? ==> o.error == OutOfRange && Cells() == old(Cells())
      ensures o.Pass? ==> Cells() == old(Cells())[i := old(Cells())[i][j := x]]
    {
      if i < 0 || i >= sz {
        return Fail(OutOfRange);
      }
      o := rows[i].SetAt(j, x);
    }

    /** operator==: same size and every cell equal. */
    method Equal(m: Matrix) returns (b: bool)
      requires Valid() && m.Valid()
      ensures b <==> Cells() == m.Cells()
    {
      if m.sz != sz {
        return false;
      }
      for i := 0 to sz
        invariant forall k :: 0 <= k < i ==> rows[k].mem[..] == m.rows[k].mem[..]
      {
        for j := 0 to sz
          invariant forall l :: 0 <= l < j ==> rows[i].mem[l] == m.rows[i].mem[l]
        {
          if rows[i].mem[j] != m.rows[i].mem[j] {
            assert Cells()[i][j] != m.Cells()[i][j];
            return false;
          }
        }
      }
      return true;
    }

    /** operator!=: exactly the negation of operator==. */
    method NotEqual(m: Matrix) returns (b: bool)
      requires Valid() && m.Valid()
      ensures b <==> Cells() != m.Cells()
    {
      if m.sz != sz {
        return true;
      }
      for i := 0 to sz
        invariant forall k :: 0 <= k < i ==> rows[k].mem[..] == m.rows[k].mem[..]
      {
        for j := 0 to sz
          invariant forall l :: 0 <= l < j ==> rows[i].mem[l] == m.rows[i].mem[l]
        {
          if rows[i].mem[j] != m.rows[i].mem[j] {
            assert Cells()[i][j] != m.Cells()[i][j];
            return true;
          }
        }
      }
      return false;
    }
    /** operator*(const T& val): a copy of the matrix with every cell
        multiplied by val. */
    method MulScalar(val: int) returns (tmp: Matrix)
      requires Valid()
      ensures tmp.Valid() && fresh(tmp) && fresh(tmp.rows)
      ensures forall i :: 0 <= i < tmp.sz ==> fresh(tmp.rows[i]) && fresh(tmp.rows[i].mem)
      ensures tmp.Cells() == MatrixMath.MatScale(Cells(), val)
    {
      tmp := new Matrix.Copy(this);
      ghost var A := Cells();
      for i := 0 to sz
        modifies tmp.Buffers()
        invariant forall k :: 0 <= k < i ==> tmp.rows[k].mem[..] == VectorMath.MulScalar(A[k], val)
        invariant forall k :: i <= k < sz ==> tmp.rows[k].mem[..] == A[k]
      {
        ScaleRow(tmp.rows[i].mem, val);
      }
    }

    /** operator*(const TDynamicVector<T>& v): invalid_argument iff v's
        size is not sz; otherwise the vector whose element i is the sum over
        j of v[j] * m[j][i], accumulated from 0 (the transposed order of the
        usual matrix-vector product). */
    method MulVector(v: Vector) returns (r: Result<Vector>)
      requires Valid() && v.Valid()
      ensures r.Err? <==> v.sz != sz
      ensures r.Err? ==> r.error == InvalidArgument
      ensures r.Ok? ==> fresh(r.value) && fresh(r.value.mem) && r.value.Valid()
      ensures r.Ok? ==> |v.Elements()| == sz &&
                        r.value.Elements() == MatrixMath.VecMat(v.Elements(), Cells())
    {
      var vsz := v.Size();
      if vsz != sz {
        return Err(InvalidArgument);
      }
      var tmp := new Vector.Zeroed(vsz);
      ghost var V, M := v.Elements(), Cells();
      for i := 0 to sz
        modifies tmp.mem
        invariant tmp.Valid() && Cells() == M && v.Elements() == V
        invariant forall k :: 0 <= k < i ==> tmp.mem[k] == VectorMath.Dot(V, MatrixMath.Column(M, k))
        invariant forall k :: i <= k < sz ==> tmp.mem[k] == 0
      {
        AccumulateColumn(v, i, tmp.mem);
      }
      assert tmp.Elements() == MatrixMath.VecMat(V, M);
      assert v.Elements() == V && Cells() == M;
      return Ok(tmp);
    }

    /** The inner loop of MulVector: dst[i] += v[j] * m[j][i] for j running
        from 0 to sz - 1; no other element of dst changes. */
    method AccumulateColumn(v: Vector, i: int, dst: array<int>)
      requires Valid() && v.Valid() && v.sz == sz && 0 <= i < sz && i < dst.Length
      requires dst !in Buffers() && dst != v.mem
      modifies dst
      ensures dst[i] == old(dst[i]) + VectorMath.Dot(v.Elements(), MatrixMath.Column(Cells(), i))
      ensures forall k :: 0 <= k < dst.Length && k != i ==> dst[k] == old(dst[k])
    {
      ghost var V, C := v.Elements(), MatrixMath.Column(Cells(), i);
      for j := 0 to sz
        invariant dst[i] == old(dst[i]) + VectorMath.Dot(V[..j], C[..j])
        invariant forall k :: 0 <= k < dst.Length && k != i ==> dst[k] == old(dst[k])
      {
        VectorMath.DotStep(V, C, j);
        dst[i] := dst[i] + v.mem[j] * rows[j].mem[i];
      }
      assert V[..sz] == V && C[..sz] == C;
    }

    /** operator+(const TDynamicMatrix&): invalid_argument iff the sizes
        differ; otherwise a new matrix of cell-wise sums. */
    method Add(m: Matrix) returns (r: Result<Matrix>)
      requires Valid() && m.Valid()
      ensures r.Err? <==> m.sz != sz
      ensures r.Err? ==> r.error == InvalidArgument
      ensures r.Ok? ==> r.value.Valid() && fresh(r.value) && fresh(r.value.rows)
      ensures r.Ok? ==> forall i :: 0 <= i < r.value.sz ==>
                          fresh(r.value.rows[i]) && fresh(r.value.rows[i].mem)
      ensures r.Ok? ==> MatrixMath.IsSquare(m.Cells(), sz) &&
                        r.value.Cells() == MatrixMath.MatAdd(Cells(), m.Cells())
    {
      if sz != m.sz {
        return Err(InvalidArgument);
      }
      var tmp := new Matrix.Zeroed(sz);
      AddInto(m, tmp);
      return Ok(tmp);
    }

    /** The outer loop of Add: row after row of the fresh result tmp is
        filled in. */
    method AddInto(m: Matrix, tmp: Matrix)
      requires Valid() && m.Valid() && tmp.Valid() && m.sz == sz && tmp.sz == sz
      requires tmp.Buffers() !! Buffers() && tmp.Buffers() !! m.Buffers()
      modifies tmp.Buffers()
      ensures tmp.Valid()
      ensures tmp.Cells() == MatrixMath.MatAdd(Cells(), m.Cells())
    {
      ghost var A, B := Cells(), m.Cells();
      for i := 0 to sz
        invariant tmp.Valid() && Cells() == A && m.Cells() == B
        invariant forall k :: 0 <= k < i ==> tmp.rows[k].mem[..] == VectorMath.Add(A[k], B[k])
      {
        AddRow(m, i, tmp.rows[i].mem, A, B);
      }
      assert tmp.Cells() == MatrixMath.MatAdd(A, B);
    }

    /** The inner loop of Add: dst[j] = a[i][j] + m[i][j] for every j. */
    method AddRow(m: Matrix, i: int, dst: array<int>, ghost A: seq<seq<int>>, ghost B: seq<seq<int>>)
      requires Valid() && m.Valid() && m.sz == sz && 0 <= i < sz && dst.Length == sz
      requires A == Cells() && B == m.Cells()
      requires dst !in Buffers() && dst !in m.Buffers()
      modifies dst
      ensures dst[..] == VectorMath.Add(A[i], B[i])
    {
      for j := 0 to sz
        invariant forall l :: 0 <= l < j ==> dst[l] == rows[i].mem[l] + m.rows[i].mem[l]
      {
        dst[j] := rows[i].mem[j] + m.rows[i].mem[j];
      }
    }

    /** operator-(const TDynamicMatrix&): invalid_argument iff the sizes
        differ; otherwise a new matrix of cell-wise differences. */
    method Sub(m: Matrix) returns (r: Result<Matrix>)
      requires Valid() && m.Valid()
      ensures r.Err? <==> m.sz != sz
      ensures r.Err? ==> r.error == InvalidArgument
      ensures r.Ok? ==> r.value.Valid() && fresh(r.value) && fresh(r.value.rows)
      ensures r.Ok? ==> forall i :: 0 <= i < r.value.sz ==>
                          fresh(r.value.rows[i]) && fresh(r.value.rows[i].mem)
      ensures r.Ok? ==> MatrixMath.IsSquare(m.Cells(), sz) &&
                        r.value.Cells() == MatrixMath.MatSub(Cells(), m.Cells())
    {
      if sz != m.sz {
        return Err(InvalidArgument);
      }
      var tmp := new Matrix.Zeroed(sz);
      SubInto(m, tmp);
      return Ok(tmp);
    }

    /** The outer loop of Sub: row after row of the fresh result tmp is
        filled in. */
    method SubInto(m: Matrix, tmp: Matrix)
      requires Valid() && m.Valid() && tmp.Valid() && m.sz == sz && tmp.sz == sz
      requires tmp.Buffers() !! Buffers() && tmp.Buffers() !! m.Buffers()
      modifies tmp.Buffers()
      ensures tmp.Valid()
      ensures tmp.Cells() == MatrixMath.MatSub(Cells(), m.Cells())
    {
      ghost var A, B := Cells(), m.Cells();
      for i := 0 to sz
        invariant tmp.Valid() && Cells() == A && m.Cells() == B
        invariant forall k :: 0 <= k < i ==> tmp.rows[k].mem[..] == VectorMath.Sub(A[k], B[k])
      {
        SubRow(m, i, tmp.rows[i].mem, A, B);
      }
      assert tmp.Cells() == MatrixMath.MatSub(A, B);
    }

    /** The inner loop of Sub: dst[j] = a[i][j] - m[i][j] for every j. */
    method SubRow(m: Matrix, i: int, dst: array<int>, ghost A: seq<seq<int>>, ghost B: seq<seq<int>>)
      requires Valid() && m.Valid() && m.sz == sz && 0 <= i < sz && dst.Length == sz
      requires A == Cells() && B == m.Cells()
      requires dst !in Buffers() && dst !in m.Buffers()
      modifies dst
      ensures dst[..] == VectorMath.Sub(A[i], B[i])
    {
      for j := 0 to sz
        invariant forall l :: 0 <= l < j ==> dst[l] == rows[i].mem[l] - m.rows[i].mem[l]
      {
        dst[j] := rows[i].mem[j] - m.rows[i].mem[j];
      }
    }

    /** operator*(const TDynamicMatrix&): invalid_argument iff the sizes
        differ; otherwise a new matrix whose cell (i, j) is the sum over k
        of a[i][k] * m[k][j], accumulated from 0. */
    method Mul(m: Matrix) returns (r: Result<Matrix>)
      requires Valid() && m.Valid()
      ensures r.Err? <==> m.sz != sz
      ensures r.Err? ==> r.error == InvalidArgument
      ensures r.Ok? ==> r.value.Valid() && fresh(r.value) && fresh(r.value.rows)
      ensures r.Ok? ==> forall i :: 0 <= i < r.value.sz ==>
                          fresh(r.value.rows[i]) && fresh(r.value.rows[i].mem)
      ensures r.Ok? ==> MatrixMath.IsSquare(m.Cells(), sz) &&
                        r.value.Cells() == MatrixMath.MatMul(Cells(), m.Cells())
    {
      if sz != m.sz {
        return Err(InvalidArgument);
      }
      var tmp := new Matrix.Zeroed(sz);
      MulInto(m, tmp);
      return Ok(tmp);
    }

    /** The outer loop of Mul: row after row of the zeroed result tmp is
        filled with the product of the receiver and m. */
    method MulInto(m: Matrix, tmp: Matrix)
      requires Valid() && m.Valid() && tmp.Valid() && m.sz == sz && tmp.sz == sz
      requires tmp.Cells() == MatrixMath.ZeroMatrix(sz)
      requires tmp.Buffers() !! Buffers() && tmp.Buffers() !! m.Buffers()
      modifies tmp.Buffers()
      ensures tmp.Valid()
      ensures tmp.Cells() == MatrixMath.MatMul(Cells(), m.Cells())
    {
      ghost var A, B := Cells(), m.Cells();
      ghost var P := MatrixMath.MatMul(A, B);
      for i := 0 to sz
        invariant tmp.Valid() && Cells() == A && m.Cells() == B
        invariant forall k :: 0 <= k < i ==> tmp.rows[k].mem[..] == P[k]
        invariant forall k, l :: i <= k < sz && 0 <= l < sz ==> tmp.rows[k].mem[l] == 0
      {
        MulRow(m, i, tmp.rows[i].mem, A, B);
      }
      assert tmp.Cells() == P;
    }

    /** The middle loop of Mul: for every j, dst[j] accumulates row i of
        the receiver against column j of m, starting from dst's zeros. */
    method MulRow(m: Matrix, i: int, dst: array<int>, ghost A: seq<seq<int>>, ghost B: seq<seq<int>>)
      requires Valid() && m.Valid() && m.sz == sz && 0 <= i < sz && dst.Length == sz
      requires A == Cells() && B == m.Cells()
      requires dst !in Buffers() && dst !in m.Buffers()
      requires forall l :: 0 <= l < sz ==> dst[l] == 0
      modifies dst
      ensures dst[..] == MatrixMath.MatMul(A, B)[i]
    {
      for j := 0 to sz
        invariant Cells() == A && m.Cells() == B
        invariant forall l :: 0 <= l < j ==> dst[l] == VectorMath.Dot(A[i], MatrixMath.Column(B, l))
        invariant forall l :: j <= l < sz ==> dst[l] == 0
      {
        AccumulateProduct(m, i, j, dst);
      }
    }

    /** The innermost loop of Mul: dst[j] += a[i][k] * m[k][j] for k running
        from 0 to sz - 1; no other element of dst changes. */
    method AccumulateProduct(m: Matrix, i: int, j: int, dst: array<int>)
      requires Valid() && m.Valid() && m.sz == sz && 0 <= i < sz && 0 <= j < sz && j < dst.Length
      requires dst !in Buffers() && dst !in m.Buffers()
      modifies dst
      ensures dst[j] == old(dst[j]) + VectorMath.Dot(Cells()[i], MatrixMath.Column(m.Cells(), j))
      ensures forall l :: 0 <= l < dst.Length && l != j ==> dst[l] == old(dst[l])
    {
      ghost var R, C := Cells()[i], MatrixMath.Column(m.Cells(), j);
      for k := 0 to sz
        invariant dst[j] == old(dst[j]) + VectorMath.Dot(R[..k], C[..k])
        invariant forall l :: 0 <= l < dst.Length && l != j ==> dst[l] == old(dst[l])
      {
        VectorMath.DotStep(R, C, k);
        dst[j] := dst[j] + rows[i].mem[k] * m.rows[k].mem[j];
      }
      assert R[..sz] == R && C[..sz] == C;
    }
  }

  /** The inner loop of the matrix-scalar product: row[j] *= val for
      every j. */
  method ScaleRow(row: array<int>, val: int)
    modifies row
    ensures row[..] == VectorMath.MulScalar(old(row[..]), val)
  {
    for j := 0 to row.Length
      invariant forall l :: 0 <= l < j ==> row[l] == old(row[l]) * val
      invariant forall l :: j <= l < row.Length ==> row[l] == old(row[l])
    {
      row[j] := row[j] * val;
    }
  }

  /** A copied matrix owns its rows: writing a cell of the copy leaves the
      source as it was. */
  method CopyHasOwnRows(m: Matrix, i: int, j: int, x: int) returns (c: Matrix)
    requires m.Valid() && 0 <= i < m.sz && 0 <= j < m.sz
    ensures fresh(c) && c.Valid()
    ensures c.Cells() == m.Cells()[i := m.Cells()[i][j := x]]
    ensures m.Cells() == old(m.Cells())
  {
    c := new Matrix.Copy(m);
    c.Set(i, j, x);
  }

  /** Comparing a matrix with itself: == holds and != does not. */
  method CompareWithItself(m: Matrix) returns (eq: bool, ne: bool)
    requires m.Valid()
    ensures eq && !ne
  {
    eq := m.Equal(m);
    ne := m.NotEqual(m);
  }
}
