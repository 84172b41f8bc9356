/** Pure mathematical meaning of the square-matrix operations, on matrices
    given as sequences of rows. */
module MatrixMath {
  import opened VectorMath

  /** a has n rows of n elements each. */
  ghost predicate IsSquare(a: seq<seq<int>>, n: nat)
  {
    |a| == n && forall i :: 0 <= i < n ==> |a[i]| == n
  }

  /** The n x n matrix of zeros, the contents of a freshly built matrix. */
  function ZeroMatrix(n: nat): (r: seq<seq<int>>)
    ensures IsSquare(r, n)
    ensures forall i, j :: 0 <= i < n && 0 <= j < n ==> r[i][j] == 0
  {
    seq(n, _ => Zeros(n))
  }

  /** Column j of a: the elements a[k][j] for k = 0, 1, ... */
  function Column(a: seq<seq<int>>, j: nat): (r: seq<int>)
    requires forall k :: 0 <= k < |a| ==> j < |a[k]|
  {
    seq(|a|, k requires 0 <= k < |a| => a[k][j])
  }

  /** Cell-wise sum. */
  function MatAdd(a: seq<seq<int>>, b: seq<seq<int>>): (r: seq<seq<int>>)
    requires IsSquare(a, |a|) && IsSquare(b, |a|)
  {
    seq(|a|, i requires 0 <= i < |a| => Add(a[i], b[i]))
  }

  /** Cell-wise difference. */
  function MatSub(a: seq<seq<int>>, b: seq<seq<int>>): (r: seq<seq<int>>)
    requires IsSquare(a, |a|) && IsSquare(b, |a|)
  {
    seq(|a|, i requires 0 <= i < |a| => Sub(a[i], b[i]))
  }

  /** Every cell multiplied by c. */
  function MatScale(a: seq<seq<int>>, c: int): (r: seq<seq<int>>)
  {
    seq(|a|, i requires 0 <= i < |a| => MulScalar(a[i], c))
  }

  /** The product: cell (i, j) is the sum over k of a[i][k] * b[k][j]. */
  function MatMul(a: seq<seq<int>>, b: seq<seq<int>>): (r: seq<seq<int>>)
    requires IsSquare(a, |a|) && IsSquare(b, |a|)
  {
    seq(|a|, i requires 0 <= i < |a| =>
      seq(|a|, j requires 0 <= j < |a| => Dot(a[i], Column(b, j))))
  }

  /** What TDynamicMatrix's matrix-times-vector operator computes: element i
      is the sum over j of v[j] * m[j][i]. The matrix is indexed with the
      summation index first, so this is the row vector v times m. */
  function VecMat(v: seq<int>, m: seq<seq<int>>): (r: seq<int>)
    requires IsSquare(m, |v|)
  {
    seq(|v|, i requires 0 <= i < |v| => Dot(v, Column(m, i)))
  }

  /** The conventional matrix-times-column-vector product, element i being
      the sum over j of m[i][j] * v[j]; a reference to compare VecMat to. */
  function MatVec(m: seq<seq<int>>, v: seq<int>): (r: seq<int>)
    requires IsSquare(m, |v|)
  {
    seq(|v|, i requires 0 <= i < |v| => Dot(m[i], v))
  }

  function Transpose(m: seq<seq<int>>): (r: seq<seq<int>>)
    requires IsSquare(m, |m|)
    ensures IsSquare(r, |m|)
    ensures forall i, j :: 0 <= i < |m| && 0 <= j < |m| ==> r[i][j] == m[j][i]
  {
    seq(|m|, i requires 0 <= i < |m| => Column(m, i))
  }

  function Identity(n: nat): (r: seq<seq<int>>)
    ensures IsSquare(r, n)
  {
    seq(n, i requires 0 <= i < n => Unit(n, i))
  }

  /** The matrix-times-vector operator is the conventional product with the
      transposed matrix. */
  lemma VecMatIsMatVecOfTranspose(v: seq<int>, m: seq<seq<int>>)
    requires IsSquare(m, |v|)
    ensures VecMat(v, m) == MatVec(Transpose(m), v)
  {
    forall i | 0 <= i < |v|
      ensures VecMat(v, m)[i] == MatVec(Transpose(m), v)[i]
    {
      DotCommutes(v, Column(m, i));
    }
  }

  /** The two contractions really differ: for m = [[0, 1], [0, 0]] and
      v = [1, 0] the operator yields [0, 1] where the conventional product
      is [0, 0]. */
  lemma VecMatDiffersFromMatVec()
    ensures VecMat([1, 0], [[0, 1], [0, 0]]) == [0, 1]
    ensures MatVec([[0, 1], [0, 0]], [1, 0]) == [0, 0]
  {
    var v, m := [1, 0], [[0, 1], [0, 0]];
    DotStep(v, Column(m, 0), 0);
    DotStep(v, Column(m, 0), 1);
    DotStep(v, Column(m, 1), 0);
    DotStep(v, Column(m, 1), 1);
    DotStep(m[0], v, 0);
    DotStep(m[0], v, 1);
    DotStep(m[1], v, 0);
    DotStep(m[1], v, 1);
    assert v[..2] == v && m[0][..2] == m[0] && m[1][..2] == m[1];
    assert Column(m, 0)[..2] == Column(m, 0) && Column(m, 1)[..2] == Column(m, 1);
  }

  /** Matrix addition is undone by subtracting the same matrix. */
  lemma SubUndoesMatAdd(a: seq<seq<int>>, b: seq<seq<int>>)
    requires IsSquare(a, |a|) && IsSquare(b, |a|)
    ensures MatSub(MatAdd(a, b), b) == a
  {
    forall i | 0 <= i < |a| ensures MatSub(MatAdd(a, b), b)[i] == a[i] {
      SubUndoesAdd(a[i], b[i]);
    }
  }

  /** Sums, differences, scalings and products of n x n matrices are n x n. */
  lemma OperationsKeepSquare(a: seq<seq<int>>, b: seq<seq<int>>, c: int)
    requires IsSquare(a, |a|) && IsSquare(b, |a|)
    ensures IsSquare(MatAdd(a, b), |a|) && IsSquare(MatSub(a, b), |a|)
    ensures IsSquare(MatScale(a, c), |a|) && IsSquare(MatMul(a, b), |a|)
  {
  }

  /** The identity matrix is a right unit of the product. */
  lemma MatMulIdentityRight(a: seq<seq<int>>)
    requires IsSquare(a, |a|)
    ensures MatMul(a, Identity(|a|)) == a
  {
    var n := |a|;
    forall i | 0 <= i < n ensures MatMul(a, Identity(n))[i] == a[i] {
      forall j | 0 <= j < n ensures MatMul(a, Identity(n))[i][j] == a[i][j] {
        assert Column(Identity(n), j) == Unit(n, j);
        DotUnit(a[i], j);
      }
    }
  }

  /** The identity matrix is a left unit of the product. */
  lemma MatMulIdentityLeft(a: seq<seq<int>>)
    requires IsSquare(a, |a|)
    ensures MatMul(Identity(|a|), a) == a
  {
    var n := |a|;
    forall i | 0 <= i < n ensures MatMul(Identity(n), a)[i] == a[i] {
      forall j | 0 <= j < n ensures MatMul(Identity(n), a)[i][j] == a[i][j] {
        DotCommutes(Unit(n, i), Column(a, j));
        DotUnit(Column(a, j), i);
      }
    }
  }

  /** The matrix-times-vector operator leaves v unchanged on the identity. */
  lemma VecMatIdentity(v: seq<int>)
    ensures VecMat(v, Identity(|v|)) == v
  {
    forall i | 0 <= i < |v| ensures VecMat(v, Identity(|v|))[i] == v[i] {
      assert Column(Identity(|v|), i) == Unit(|v|, i);
      DotUnit(v, i);
    }
  }

  /** A scalar factor on the left operand moves out of the product. */
  lemma MatMulScaleLeft(a: seq<seq<int>>, b: seq<seq<int>>, c: int)
    requires IsSquare(a, |a|) && IsSquare(b, |a|)
    ensures MatMul(MatScale(a, c), b) == MatScale(MatMul(a, b), c)
  {
    var n := |a|;
    forall i | 0 <= i < n ensures MatMul(MatScale(a, c), b)[i] == MatScale(MatMul(a, b), c)[i] {
      forall j | 0 <= j < n
        ensures MatMul(MatScale(a, c), b)[i][j] == MatScale(MatMul(a, b), c)[i][j]
      {
        DotMulScalarLeft(a[i], Column(b, j), c);
      }
    }
  }

  /** The product distributes over a sum on the left. */
  lemma MatMulAddLeft(a: seq<seq<int>>, b: seq<seq<int>>, c: seq<seq<int>>)
    requires IsSquare(a, |a|) && IsSquare(b, |a|) && IsSquare(c, |a|)
    ensures MatMul(MatAdd(a, b), c) == MatAdd(MatMul(a, c), MatMul(b, c))
  {
    var n := |a|;
    forall i | 0 <= i < n
      ensures MatMul(MatAdd(a, b), c)[i] == MatAdd(MatMul(a, c), MatMul(b, c))[i]
    {
      forall j | 0 <= j < n
        ensures MatMul(MatAdd(a, b), c)[i][j] == MatAdd(MatMul(a, c), MatMul(b, c))[i][j]
      {
        DotAddLeft(a[i], b[i], Column(c, j));
      }
    }
  }

  /** A scalar factor on the right operand moves out of the product. */
  lemma MatMulScaleRight(a: seq<seq<int>>, b: seq<seq<int>>, c: int)
    requires IsSquare(a, |a|) && IsSquare(b, |a|)
    ensures MatMul(a, MatScale(b, c)) == MatScale(MatMul(a, b), c)
  {
    var n := |a|;
    forall i | 0 <= i < n ensures MatMul(a, MatScale(b, c))[i] == MatScale(MatMul(a, b), c)[i] {
      forall j | 0 <= j < n
        ensures MatMul(a, MatScale(b, c))[i][j] == MatScale(MatMul(a, b), c)[i][j]
      {
        assert Column(MatScale(b, c), j) == MulScalar(Column(b, j), c);
        DotCommutes(a[i], MulScalar(Column(b, j), c));
        DotMulScalarLeft(Column(b, j), a[i], c);
        DotCommutes(Column(b, j), a[i]);
      }
    }
  }

  /** The product distributes over a sum on the right. */
  lemma MatMulAddRight(a: seq<seq<int>>, b: seq<seq<int>>, c: seq<seq<int>>)
    requires IsSquare(a, |a|) && IsSquare(b, |a|) && IsSquare(c, |a|)
    ensures MatMul(a, MatAdd(b, c)) == MatAdd(MatMul(a, b), MatMul(a, c))
  {
    var n := |a|;
    forall i | 0 <= i < n
      ensures MatMul(a, MatAdd(b, c))[i] == MatAdd(MatMul(a, b), MatMul(a, c))[i]
    {
      forall j | 0 <= j < n
        ensures MatMul(a, MatAdd(b, c))[i][j] == MatAdd(MatMul(a, b), MatMul(a, c))[i][j]
      {
        assert Column(MatAdd(b, c), j) == Add(Column(b, j), Column(c, j));
        DotCommutes(a[i], Add(Column(b, j), Column(c, j)));
        DotAddLeft(Column(b, j), Column(c, j), a[i]);
        DotCommutes(Column(b, j), a[i]);
        DotCommutes(Column(c, j), a[i]);
      }
    }
  }

  /** A worked 2 x 2 example of the product: [[1, 2], [3, 4]] times
      [[5, 6], [7, 8]] is [[19, 22], [43, 50]]. */
  lemma ProductExample()
    ensures MatMul([[1, 2], [3, 4]], [[5, 6], [7, 8]]) == [[19, 22], [43, 50]]
  {
    var a, b := [[1, 2], [3, 4]], [[5, 6], [7, 8]];
    forall i, j | 0 <= i < 2 && 0 <= j < 2
      ensures Dot(a[i], Column(b, j)) == a[i][0] * b[0][j] + a[i][1] * b[1][j]
    {
      DotStep(a[i], Column(b, j), 0);
      DotStep(a[i], Column(b, j), 1);
      assert a[i][..2] == a[i] && Column(b, j)[..2] == Column(b, j);
    }
    assert MatMul(a, b)[0] == [19, 22];
    assert MatMul(a, b)[1] == [43, 50];
  }

  /** The 5 x 5 oracles of the sum and difference tests: the grid p with
      p[i][j] = 5i + j plus the all-ones matrix is p shifted up by 1, and p
      minus the all-twos matrix is p shifted down by 2. */
  lemma SumAndDifferenceOracle()
    ensures var p := seq(5, i => seq(5, j => 5 * i + j));
            MatAdd(p, seq(5, _ => seq(5, _ => 1))) == seq(5, i => seq(5, j => 1 + (5 * i + j))) &&
            MatSub(p, seq(5, _ => seq(5, _ => 2))) == seq(5, i => seq(5, j => (5 * i + j) - 2))
  {
    var p := seq(5, i => seq(5, j => 5 * i + j));
    var ones, twos := seq(5, _ => seq(5, _ => 1)), seq(5, _ => seq(5, _ => 2));
    var sum, diff := seq(5, i => seq(5, j => 1 + (5 * i + j))), seq(5, i => seq(5, j => (5 * i + j) - 2));
    forall i | 0 <= i < 5 ensures MatAdd(p, ones)[i] == sum[i] && MatSub(p, twos)[i] == diff[i] {
    }
  }
}
