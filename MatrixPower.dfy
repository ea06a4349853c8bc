/** Transforms.mpow: an integer power of a square matrix, computed with
    repeated squaring.  The matrix product (mmul) is any associative
    operation `mul` over a matrix type M, the identity matrix (Nd4j.eye) is
    a value `eye`, and the inverse (InvertMatrix.invert) is a function
    `invert`: their numerics are not part of this model. */
module MatrixPower {

  /** `mul` is associative, as the matrix product is. */
  ghost predicate Associative<M(!new)>(mul: (M, M) -> M)
  {
    forall a: M, b: M, c: M :: mul(mul(a, b), c) == mul(a, mul(b, c))
  }

  function Abs(n: int): nat
  {
    if n < 0 then -n else n
  }

  function Pow2(k: nat): (r: nat)
    ensures r >= 1
  {
    if k == 0 then 1 else 2 * Pow2(k - 1)
  }

  /** m^k for k >= 1: m^1 = m and m^(k+1) = m^k * m, the order in which
      mmuli multiplies the running result by the base. */
  function Power<M>(mul: (M, M) -> M, m: M, k: nat): M
    requires k >= 1
  {
    if k == 1 then m else mul(Power(mul, m, k - 1), m)
  }

  /** The value mpow promises: the identity for n = 0, in^n for n > 0, and
      (in^-1)^|n| for n < 0. */
  function IntPower<M>(mul: (M, M) -> M, eye: M, invert: M -> M, m: M, n: int): M
  {
    if n == 0 then eye
    else if n > 0 then Power(mul, m, n)
    else Power(mul, invert(m), -n)
  }

  /** m^a * m^b = m^(a+b). */
  lemma {:induction false} PowerAdd<M(!new)>(mul: (M, M) -> M, m: M, a: nat, b: nat)
    requires Associative(mul)
    requires a >= 1 && b >= 1
    ensures mul(Power(mul, m, a), Power(mul, m, b)) == Power(mul, m, a + b)
  {
    if b > 1 {
      calc {
        mul(Power(mul, m, a), Power(mul, m, b));
        mul(Power(mul, m, a), mul(Power(mul, m, b - 1), m));
        mul(mul(Power(mul, m, a), Power(mul, m, b - 1)), m);
        { PowerAdd(mul, m, a, b - 1); }
        mul(Power(mul, m, a + b - 1), m);
      }
    }
  }

  /** Squaring m^(2^k) gives m^(2^(k+1)). */
  lemma SquareStep<M(!new)>(mul: (M, M) -> M, m: M, k: nat)
    requires Associative(mul)
    ensures mul(Power(mul, m, Pow2(k)), Power(mul, m, Pow2(k))) == Power(mul, m, Pow2(k + 1))
  {
    PowerAdd(mul, m, Pow2(k), Pow2(k));
  }

  /** The square count mpow derives from log(n) / log(2): the largest s with
      2^s <= n. */
  function Log2Floor(n: nat): (s: nat)
    requires n >= 1
    ensures Pow2(s) <= n < Pow2(s + 1)
  {
    if n == 1 then 0 else Log2Floor(n / 2) + 1
  }

  /** With that square count, fewer than 2^s multiplications remain after
      the squarings. */
  lemma Log2FloorLeavesFewMultiplications(n: nat)
    requires n >= 4
    ensures Log2Floor(n) >= 2
    ensures n - Pow2(Log2Floor(n)) < Pow2(Log2Floor(n))
  {
  }

  /** A matrix object whose contents mpow may overwrite (INDArray.assign). */
  class Matrix<M> {
    var value: M

    constructor (v: M)
      ensures value == v
    {
      value := v;
    }
  }

  /** mpow(in, n, dup).  `squares` is the square count the source computes
      as (int) (log(n) / log(2)); any count with 2^squares <= |n| serves.
      With dup the input is left alone and a new matrix is returned; without
      dup the result is assigned into `inp`, which is returned.  The running
      product, a fresh matrix in the source, is held here as a value. */
  method MPow<M(!new)>(inp: Matrix<M>, n: int, dup: bool, squares: nat,
                 mul: (M, M) -> M, eye: M, invert: M -> M) returns (r: Matrix<M>)
    requires Associative(mul)
    requires Abs(n) >= 4 ==> Pow2(squares) <= Abs(n)
    modifies inp
    ensures r.value == IntPower(mul, eye, invert, old(inp.value), n)
    ensures dup ==> fresh(r)
    ensures dup ==> inp.value == old(inp.value)
    ensures !dup ==> r == inp
  {
    if n == 0 {
      if dup {
        r := new Matrix(eye);
      } else {
        inp.value := eye;
        r := inp;
      }
      return;
    }
    var temp: M;
    var k: nat;
    if n < 0 {
      temp := invert(inp.value);
      if !dup {
        inp.value := temp;
      }
      k := -n;
    } else {
      temp := inp.value;
      k := n;
    }
    assert Power(mul, temp, k) == IntPower(mul, eye, invert, old(inp.value), n);
    var result := RepeatedSquaring(temp, k, squares, mul);
    if dup {
      r := new Matrix(result);
    } else {
      inp.value := result;
      r := inp;
    }
  }

  /** The product loops of mpow: k - 1 multiplications for k < 4, otherwise
      `squares` squarings followed by the remaining multiplications. */
  method RepeatedSquaring<M(!new)>(temp: M, k: nat, squares: nat, mul: (M, M) -> M) returns (result: M)
    requires Associative(mul) && k >= 1
    requires k >= 4 ==> Pow2(squares) <= k
    ensures result == Power(mul, temp, k)
  {
    result := temp;
    if k < 4 {
      var i := 1;
      while i < k
        invariant 1 <= i <= k
        invariant result == Power(mul, temp, i)
      {
        result := mul(result, temp);
        i := i + 1;
      }
    } else {
      var i := 0;
      while i < squares
        invariant 0 <= i <= squares
        invariant result == Power(mul, temp, Pow2(i))
      {
        SquareStep(mul, temp, i);
        result := mul(result, result);
        i := i + 1;
      }
      var diff := k - Pow2(squares);
      var j := 0;
      while j < diff
        invariant 0 <= j <= diff
        invariant result == Power(mul, temp, Pow2(squares) + j)
      {
        result := mul(result, temp);
        j := j + 1;
      }
    }
  }
}
