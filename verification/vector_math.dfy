/** Pure mathematical meaning of the vector operations: sequences of
    integers, the element-wise maps and the dot product. */
module VectorMath {

  /** The contents of a freshly allocated vector of length n: `new T[n]()`
      value-initialises every element to `T()`, which is 0 for int. */
  function Zeros(n: nat): (r: seq<int>)
    ensures |r| == n
    ensures forall i :: 0 <= i < n ==> r[i] == 0
  {
    seq(n, _ => 0)
  }

  /** `res[i] = a[i] + c` for every i. */
  function AddScalar(a: seq<int>, c: int): (r: seq<int>)
  {
    seq(|a|, i requires 0 <= i < |a| => a[i] + c)
  }

  /** `res[i] = a[i] - c` for every i. */
  function SubScalar(a: seq<int>, c: int): (r: seq<int>)
  {
    seq(|a|, i requires 0 <= i < |a| => a[i] - c)
  }

  /** `res[i] = a[i] * c` for every i. */
  function MulScalar(a: seq<int>, c: int): (r: seq<int>)
  {
    seq(|a|, i requires 0 <= i < |a| => a[i] * c)
  }

  /** Element-wise sum of two vectors of the same length. */
  function Add(a: seq<int>, b: seq<int>): (r: seq<int>)
    requires |a| == |b|
  {
    seq(|a|, i requires 0 <= i < |a| => a[i] + b[i])
  }

  /** Element-wise difference of two vectors of the same length. */
  function Sub(a: seq<int>, b: seq<int>): (r: seq<int>)
    requires |a| == |b|
  {
    seq(|a|, i requires 0 <= i < |a| => a[i] - b[i])
  }

  /** The dot product `sum a[i] * b[i]`, accumulated from index 0 upwards
      starting at 0, so that a prefix of the sum is the value after that
      many loop iterations. */
  function Dot(a: seq<int>, b: seq<int>): int
    requires |a| == |b|
  {
    if |a| == 0 then 0
    else Dot(a[..|a| - 1], b[..|b| - 1]) + a[|a| - 1] * b[|b| - 1]
  }

  /** One more step of the accumulation loop. */
  lemma DotStep(a: seq<int>, b: seq<int>, k: nat)
    requires |a| == |b| && k < |a|
    ensures Dot(a[..k + 1], b[..k + 1]) == Dot(a[..k], b[..k]) + a[k] * b[k]
  {
    assert a[..k + 1][..k] == a[..k];
    assert b[..k + 1][..k] == b[..k];
  }

  /** Adding and then subtracting the same scalar gives back the vector. */
  lemma SubScalarUndoesAddScalar(a: seq<int>, c: int)
    ensures SubScalar(AddScalar(a, c), c) == a
  {
  }

  /** Vector addition is undone by subtracting the same vector. */
  lemma SubUndoesAdd(a: seq<int>, b: seq<int>)
    requires |a| == |b|
    ensures Sub(Add(a, b), b) == a
  {
  }

  /** The dot product does not depend on the order of its operands. */
  lemma {:induction false} DotCommutes(a: seq<int>, b: seq<int>)
    requires |a| == |b|
    ensures Dot(a, b) == Dot(b, a)
  {
    if |a| > 0 {
      DotCommutes(a[..|a| - 1], b[..|b| - 1]);
    }
  }

  /** The dot product is linear in its first operand: it distributes over
      vector addition. */
  lemma {:induction false} DotAddLeft(a: seq<int>, b: seq<int>, c: seq<int>)
    requires |a| == |b| == |c|
    ensures Dot(Add(a, b), c) == Dot(a, c) + Dot(b, c)
  {
    if |a| > 0 {
      var n := |a| - 1;
      assert Add(a, b)[..n] == Add(a[..n], b[..n]);
      DotAddLeft(a[..n], b[..n], c[..n]);
    }
  }

  /** Scaling one operand scales the dot product. */
  lemma {:induction false} DotMulScalarLeft(a: seq<int>, b: seq<int>, c: int)
    requires |a| == |b|
    ensures Dot(MulScalar(a, c), b) == c * Dot(a, b)
  {
    if |a| > 0 {
      var n := |a| - 1;
      assert MulScalar(a, c)[..n] == MulScalar(a[..n], c);
      DotMulScalarLeft(a[..n], b[..n], c);
      assert a[n] * c * b[n] == c * (a[n] * b[n]);
    }
  }

  /** Dot product with the zero vector is 0: the accumulator's seed. */
  lemma {:induction false} DotZeros(a: seq<int>)
    ensures Dot(a, Zeros(|a|)) == 0
  {
    if |a| > 0 {
      assert Zeros(|a|)[..|a| - 1] == Zeros(|a| - 1);
      DotZeros(a[..|a| - 1]);
    }
  }

  /** The unit vector with a 1 at position j and 0 elsewhere. */
  function Unit(n: nat, j: nat): (r: seq<int>)
    requires j < n
  {
    seq(n, i requires 0 <= i < n => if i == j then 1 else 0)
  }

  /** Dot product with a unit vector selects one element: the basis of the
      identity-matrix laws in MatrixMath. */
  lemma {:induction false} DotUnit(a: seq<int>, j: nat)
    requires j < |a|
    ensures Dot(a, Unit(|a|, j)) == a[j]
  {
    var n := |a| - 1;
    if j == n {
      assert Unit(|a|, j)[..n] == Zeros(n);
      DotZeros(a[..n]);
    } else {
      assert Unit(|a|, j)[..n] == Unit(n, j);
      DotUnit(a[..n], j);
    }
  }

  /** The concrete oracles of the vector tests: [123, 534, 756, 3] plus 4,
      minus 4 and times 7, and its dot product with [1, 2, 3, 4]. */
  lemma ScalarAndDotOracles()
    ensures AddScalar([123, 534, 756, 3], 4) == [127, 538, 760, 7]
    ensures SubScalar([123, 534, 756, 3], 4) == [119, 530, 752, -1]
    ensures MulScalar([123, 534, 756, 3], 7) == [861, 3738, 5292, 21]
    ensures Dot([1, 2, 3, 4], [123, 534, 756, 3]) == 3471
  {
    var a, b := [1, 2, 3, 4], [123, 534, 756, 3];
    DotStep(a, b, 0);
    DotStep(a, b, 1);
    DotStep(a, b, 2);
    DotStep(a, b, 3);
    assert a[..4] == a && b[..4] == b;
  }
}
