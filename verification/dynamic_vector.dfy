/** TDynamicVector<int>: a vector that owns a heap buffer of sz elements. */
module DynamicVector {
  import opened Wrappers
  import VectorMath

  const MaxVectorSize := 100000000

  /** The element copy of std::copy(src, src + n, dst), front to back: the
      first n elements of src are written over the first n of dst and the
      rest of dst stays. Self-assignment passes the same buffer twice; the
      front-to-back copy then leaves it as it was. */
  method CopyElements(src: array<int>, dst: array<int>, n: int)
    requires 0 <= n <= src.Length && n <= dst.Length
    modifies dst
    ensures dst[..n] == old(src[..n])
    ensures dst[n..] == old(dst[n..])
  {
    for i := 0 to n
      invariant forall k :: 0 <= k < i ==> dst[k] == old(src[k])
      invariant forall k :: i <= k < dst.Length ==> dst[k] == old(dst[k])
      invariant forall k :: i <= k < n ==> src[k] == old(src[k])
    {
      dst[i] := src[i];
    }
  }

  class Vector {
    var sz: int
    var mem: array<int>

    /** The size stays in range and the buffer holds exactly sz elements. */
    ghost predicate Valid()
      reads this
    {
      1 <= sz <= MaxVectorSize && mem.Length == sz
    }

    /** The abstract value: the elements in index order. */
    ghost function Elements(): seq<int>
      reads this, mem
    {
      mem[..]
    }

    /** The allocation `new T[n]()` once the size checks have passed: n
        value-initialised, that is zero, elements. */
    constructor Zeroed(n: int)
      requires 1 <= n <= MaxVectorSize
      ensures Valid() && fresh(mem)
      ensures Elements() == VectorMath.Zeros(n)
    {
      sz := n;
      mem := new int[n](_ => 0);
    }

    /** TDynamicVector(int size = 1): out_of_range unless 1 <= n <= 100000000;
        otherwise n zero elements in a new buffer. */
    static method Create(n: int := 1) returns (r: Result<Vector>)
      ensures r.Err? <==> n <= 0 || n > MaxVectorSize
      ensures r.Err? ==> r.error == OutOfRange
      ensures r.Ok? ==> fresh(r.value) && fresh(r.value.mem) && r.value.Valid()
      ensures r.Ok? ==> r.value.Elements() == VectorMath.Zeros(n)
    {
      if n <= 0 {
        return Err(OutOfRange);
      }
      if n > MaxVectorSize {
        return Err(OutOfRange);
      }
      var v := new Vector.Zeroed(n);
      return Ok(v);
    }

    /** TDynamicVector(T* arr, int s): out_of_range when s is above
        100000000, before arr is read; otherwise a new buffer holding
        arr[0..s). The caller passes s >= 1 and, when s is in range, a buffer
        of at least s readable elements. */
    static method FromBuffer(arr: array<int>, s: int) returns (r: Result<Vector>)
      requires 1 <= s && (s <= MaxVectorSize ==> s <= arr.Length)
      ensures r.Err? <==> s > MaxVectorSize
      ensures r.Err? ==> r.error == OutOfRange
      ensures r.Ok? ==> fresh(r.value) && fresh(r.value.mem) && r.value.Valid()
      ensures r.Ok? ==> r.value.Elements() == arr[..s]
    {
      if s > MaxVectorSize {
        return Err(OutOfRange);
      }
      var v := new Vector.Zeroed(s);
      CopyElements(arr, v.mem, s);
      return Ok(v);
    }

    /** The copy constructor: same size, same elements, its own buffer. */
    constructor Copy(v: Vector)
      requires v.Valid()
      ensures Valid() && fresh(mem)
      ensures Elements() == v.Elements()
    {
      sz := v.sz;
      mem := new int[v.sz];
      new;
      CopyElements(v.mem, mem, sz);
    }

    /** Copy assignment `*this = v`. A new zeroed buffer of v's size
        replaces the old one only when the sizes differ; then v's elements
        are copied in. With v == this the contents stay as they were. */
    method Assign(v: Vector)
      requires Valid() && v.Valid()
      modifies this, mem
      ensures Valid() && sz == old(v.sz)
      ensures Elements() == old(v.Elements())
      ensures v.Elements() == old(v.Elements())
      ensures old(sz) == old(v.sz) ==> mem == old(mem)
      ensures old(sz) != old(v.sz) ==> fresh(mem)
    {
      if sz != v.sz {
        var tmp := new int[v.sz](_ => 0);
        sz := v.sz;
        mem := tmp;
      }
      CopyElements(v.mem, mem, sz);
    }

    /** size(): the number of elements. */
    function Size(): (n: int)
      reads this, mem
      requires Valid()
      ensures n == |Elements()| && 1 <= n <= MaxVectorSize
    {
      sz
    }

    /** Unchecked read `v[i]`; out of range it is undefined behaviour, so the
        index must be in range. */
    function Get(i: int): (x: int)
      reads this, mem
      requires Valid() && 0 <= i < sz
      ensures x == Elements()[i]
    {
      mem[i]
    }

    /** Unchecked write `v[i] = x`: only element i changes. */
    method Set(i: int, x: int)
      requires Valid() && 0 <= i < sz
      modifies mem
      ensures Elements() == old(Elements())[i := x]
    {
      mem[i] := x;
    }

    /** Checked read `v.at(i)`: out_of_range iff i < 0 or i >= sz. */
    function At(i: int): (r: Result<int>)
      reads this, mem
      requires Valid()
      ensures r.Err? <==> i < 0 || i >= |Elements()|
      ensures r.Err? ==> r.error == OutOfRange
      ensures r.Ok? ==> r.value == Elements()[i]
    {
      if i < 0 then Err(OutOfRange)
      else if i >= sz then Err(OutOfRange)
      else Ok(mem[i])
    }

    /** Checked write `v.at(i) = x`: out_of_range iff i < 0 or i >= sz, and
        then nothing changes; otherwise only element i changes. */
    method SetAt(i: int, x: int) returns (o: Outcome)
      requires Valid()
      modifies mem
      ensures o.Fail? <==> i < 0 || i >= sz
      ensures o.Fail? ==> o.error == OutOfRange && Elements() == old(Elements())
      ensures o.Pass? ==> Elements() == old(Elements())[i := x]
    {
      if i < 0 {
        return Fail(OutOfRange);
      }
      if i >= sz {
        return Fail(OutOfRange);
      }
      mem[i] := x;
      return Pass;
    }

    /** operator==: same size and pairwise equal elements. */
    method Equal(v: Vector) returns (b: bool)
      requires Valid() && v.Valid()
      ensures b <==> Elements() == v.Elements()
    {
      if sz != v.sz {
        return false;
      }
      for i := 0 to sz
        invariant forall k :: 0 <= k < i ==> v.mem[k] == mem[k]
      {
        if v.mem[i] != mem[i] {
          return false;
        }
      }
      return true;
    }

    /** operator!=: exactly the negation of operator==. */
    method NotEqual(v: Vector) returns (b: bool)
      requires Valid() && v.Valid()
      ensures b <==> Elements() != v.Elements()
    {
      if sz != v.sz {
        return true;
      }
      for i := 0 to sz
        invariant forall k :: 0 <= k < i ==> v.mem[k] == mem[k]
      {
        if v.mem[i] != mem[i] {
          return true;
        }
      }
      return false;
    }

    /** operator+(T val): a new vector with val added to every element. */
    method AddScalar(val: int) returns (res: Vector)
      requires Valid()
      ensures fresh(res) && fresh(res.mem) && res.Valid()
      ensures res.Elements() == VectorMath.AddScalar(Elements(), val)
    {
      res := new Vector.Copy(this);
      for i := 0 to sz
        invariant res.Valid() && res.sz == sz && fresh(res.mem)
        invariant forall k :: 0 <= k < i ==> res.mem[k] == mem[k] + val
        invariant forall k :: i <= k < sz ==> res.mem[k] == mem[k]
      {
        res.mem[i] := res.mem[i] + val;
      }
    }

    /** operator-(T val): a new vector with val subtracted from every
        element. */
    method SubScalar(val: int) returns (res: Vector)
      requires Valid()
      ensures fresh(res) && fresh(res.mem) && res.Valid()
      ensures res.Elements() == VectorMath.SubScalar(Elements(), val)
    {
      res := new Vector.Copy(this);
      for i := 0 to sz
        invariant res.Valid() && res.sz == sz && fresh(res.mem)
        invariant forall k :: 0 <= k < i ==> res.mem[k] == mem[k] - val
        invariant forall k :: i <= k < sz ==> res.mem[k] == mem[k]
      {
        res.mem[i] := res.mem[i] - val;
      }
    }

    /** operator*(T val): a new vector with every element multiplied by
        val. */
    method MulScalar(val: int) returns (res: Vector)
      requires Valid()
      ensures fresh(res) && fresh(res.mem) && res.Valid()
      ensures res.Elements() == VectorMath.MulScalar(Elements(), val)
    {
      res := new Vector.Copy(this);
      for i := 0 to sz
        invariant res.Valid() && res.sz == sz && fresh(res.mem)
        invariant forall k :: 0 <= k < i ==> res.mem[k] == mem[k] * val
        invariant forall k :: i <= k < sz ==> res.mem[k] == mem[k]
      {
        res.mem[i] := res.mem[i] * val;
      }
    }

    /** operator+(const TDynamicVector&): invalid_argument iff the sizes
        differ; otherwise a new vector of element-wise sums. */
    method Add(v: Vector) returns (r: Result<Vector>)
      requires Valid() && v.Valid()
      ensures r.Err? <==> v.sz != sz
      ensures r.Err? ==> r.error == InvalidArgument
      ensures r.Ok? ==> fresh(r.value) && fresh(r.value.mem) && r.value.Valid()
      ensures r.Ok? ==> |v.Elements()| == |Elements()| &&
                        r.value.Elements() == VectorMath.Add(Elements(), v.Elements())
    {
      if v.sz != sz {
        return Err(InvalidArgument);
      }
      var res := new Vector.Copy(this);
      for i := 0 to sz
        invariant res.Valid() && res.sz == sz && fresh(res.mem)
        invariant forall k :: 0 <= k < i ==> res.mem[k] == mem[k] + v.mem[k]
        invariant forall k :: i <= k < sz ==> res.mem[k] == mem[k]
      {
        res.mem[i] := res.mem[i] + v.mem[i];
      }
      return Ok(res);
    }

    /** operator-(const TDynamicVector&): invalid_argument iff the sizes
        differ; otherwise a new vector of element-wise differences. */
    method Sub(v: Vector) returns (r: Result<Vector>)
      requires Valid() && v.Valid()
      ensures r.Err? <==> v.sz != sz
      ensures r.Err? ==> r.error == InvalidArgument
      ensures r.Ok? ==> fresh(r.value) && fresh(r.value.mem) && r.value.Valid()
      ensures r.Ok? ==> |v.Elements()| == |Elements()| &&
                        r.value.Elements() == VectorMath.Sub(Elements(), v.Elements())
    {
      if v.sz != sz {
        return Err(InvalidArgument);
      }
      var res := new Vector.Copy(this);
      for i := 0 to sz
        invariant res.Valid() && res.sz == sz && fresh(res.mem)
        invariant forall k :: 0 <= k < i ==> res.mem[k] == mem[k] - v.mem[k]
        invariant forall k :: i <= k < sz ==> res.mem[k] == mem[k]
      {
        res.mem[i] := res.mem[i] - v.mem[i];
      }
      return Ok(res);
    }

    /** operator*(const TDynamicVector&), the dot product: invalid_argument
        iff the sizes differ; otherwise the sum of a[i] * v[i], accumulated
        from 0. */
    method Dot(v: Vector) returns (r: Result<int>)
      requires Valid() && v.Valid()
      ensures r.Err? <==> v.sz != sz
      ensures r.Err? ==> r.error == InvalidArgument
      ensures r.Ok? ==> |v.Elements()| == |Elements()| &&
                        r.value == VectorMath.Dot(Elements(), v.Elements())
    {
      if v.sz != sz {
        return Err(InvalidArgument);
      }
      var res := 0;
      for i := 0 to sz
        invariant res == VectorMath.Dot(mem[..i], v.mem[..i])
      {
        VectorMath.DotStep(mem[..], v.mem[..], i);
        assert mem[..][..i + 1] == mem[..i + 1] && v.mem[..][..i + 1] == v.mem[..i + 1];
        res := res + mem[i] * v.mem[i];
      }
      assert mem[..sz] == mem[..] && v.mem[..sz] == v.mem[..];
      return Ok(res);
    }
  }

  /** friend swap(lhs, rhs): the two vectors exchange size and buffer. */
  method Swap(lhs: Vector, rhs: Vector)
    requires lhs.Valid() && rhs.Valid()
    modifies lhs, rhs
    ensures lhs.Valid() && rhs.Valid()
    ensures lhs.sz == old(rhs.sz) && lhs.mem == old(rhs.mem)
    ensures rhs.sz == old(lhs.sz) && rhs.mem == old(lhs.mem)
    ensures lhs.Elements() == old(rhs.Elements()) && rhs.Elements() == old(lhs.Elements())
  {
    var s := lhs.sz;
    lhs.sz := rhs.sz;
    rhs.sz := s;
    var m := lhs.mem;
    lhs.mem := rhs.mem;
    rhs.mem := m;
  }

  /** A copy owns its buffer: writing to the copy leaves the source as it
      was. */
  method CopyHasOwnMemory(v: Vector, i: int, x: int) returns (c: Vector)
    requires v.Valid() && 0 <= i < v.sz
    ensures fresh(c) && c.Valid()
    ensures c.Elements() == v.Elements()[i := x]
    ensures v.Elements() == old(v.Elements())
  {
    c := new Vector.Copy(v);
    c.Set(i, x);
  }

  /** Comparing a vector with itself: == holds and != does not. */
  method CompareWithItself(v: Vector) returns (eq: bool, ne: bool)
    requires v.Valid()
    ensures eq && !ne
  {
    eq := v.Equal(v);
    ne := v.NotEqual(v);
  }
}
