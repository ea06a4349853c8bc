/** Op objects over arrays: the three-array constructors that fix the
    element count n themselves, Reverse's init that marks the op as a
    pass-through, and TanhDerivative's exec, which writes
    (1 - tanh(x)^2) * y into z.  tanh is a parameter; BaseOp, which holds
    x, y, z and n, is taken to set those fields in its init and to call
    that init from its constructors. */
module OpInstances {
  import opened Outcomes
  import opened NDArrays
  import opened OpTaxonomy

  class OpInstance {
    var kind: OpKind
    var x: NDArray
    var y: Option<NDArray>
    var z: NDArray
    var n: int
    var passThrough: bool

    /** Kind(x, y, z) for the classes that declare it: n is the length of z
        for TanhDerivative and the length of x for Sum, Reverse and
        RectifiedTanh.  The base constructor hands the arrays and n to the
        class's init, so a Reverse op comes out as a pass-through. */
    constructor ThreeArrays(kind: OpKind, x: NDArray, y: NDArray, z: NDArray)
      requires kind in {Sum, TanhDerivative, Reverse, RectifiedTanh}
      ensures this.kind == kind && this.x == x && this.y == Some(y) && this.z == z
      ensures n == if kind == TanhDerivative then |z.data| else |x.data|
      ensures passThrough <==> kind == Reverse
    {
      this.kind := kind;
      this.x := x;
      this.y := Some(y);
      this.z := z;
      n := 0;
      passThrough := false;
      new;
      Init(x, Some(y), z, if kind == TanhDerivative then |z.data| else |x.data|);
    }

    /** init(x, y, z, n): the base init stores the fields; Reverse then sets
        passThrough, every other class leaves it as it was. */
    method Init(x: NDArray, y: Option<NDArray>, z: NDArray, n: int)
      modifies this
      ensures this.x == x && this.y == y && this.z == z && this.n == n && kind == old(kind)
      ensures passThrough == (old(passThrough) || kind == Reverse)
    {
      this.x := x;
      this.y := y;
      this.z := z;
      this.n := n;
      if kind == Reverse {
        passThrough := true;
      }
    }

    /** TanhDerivative.exec(): tanh over x, squared, subtracted from 1 and
        multiplied by y, then assigned into z.  Without y the in-place
        multiplication dereferences null and z keeps its contents. */
    method ExecTanhDerivative(tanh: real -> real) returns (r: Result<()>)
      requires kind == TanhDerivative
      requires |x.data| == |z.data|
      requires y.Some? ==> |y.value.data| == |x.data|
      modifies z
      ensures y.None? ==> r == Failure(NullPointer) && unchanged(z)
      ensures y.Some? ==> r == Success(()) && z.data == TanhGradient(tanh, old(x.data), old(y.value.data))
      ensures z.shape == old(z.shape) && z.ordering == old(z.ordering) && z.freed == old(z.freed)
    {
      var t := Map(tanh, x.data);
      var oneMinusSquare := Map(v => 1.0 - v, Zip((a, b) => a * b, t, t));
      if y.None? {
        return Failure(NullPointer);
      }
      ghost var expected := TanhGradient(tanh, x.data, y.value.data);
      z.data := Zip((a, b) => a * b, oneMinusSquare, y.value.data);
      assert forall i :: 0 <= i < |expected| ==> z.data[i] == expected[i];
      return Success(());
    }
  }

  /** What exec writes at each position: (1 - tanh(x)^2) * y. */
  function TanhGradient(tanh: real -> real, xs: seq<real>, ys: seq<real>): (r: seq<real>)
    requires |xs| == |ys|
    ensures |r| == |xs|
    ensures forall i :: 0 <= i < |xs| ==> r[i] == (1.0 - tanh(xs[i]) * tanh(xs[i])) * ys[i]
  {
    seq(|xs|, i requires 0 <= i < |xs| => (1.0 - tanh(xs[i]) * tanh(xs[i])) * ys[i])
  }

  /** With t = s / c, c^2 - s^2 = 1 and c nonzero (tanh = sinh / cosh):
      1 - t^2 = 1 / c^2. */
  lemma OneMinusSquareOfTanh(t: real, s: real, c: real)
    requires c != 0.0 && t * c == s && c * c - s * s == 1.0
    ensures c * c != 0.0
    ensures 1.0 - t * t == 1.0 / (c * c)
  {
    var q := c * c;
    NonzeroProduct(c, c, q);
    assert t * t * q == s * s by {
      assert t * t * (c * c) == (t * c) * (t * c);
    }
    assert (1.0 - t * t) * q == 1.0;
  }

  /** The value exec writes at one element is the incoming gradient y times
      the derivative node doDiff builds, 1 / cosh(x)^2, once tanh, sinh and
      cosh are related as they are for reals. */
  lemma ExecElementIsChainRule(op: Op, env: Env, tanh: real -> real, sinh: real -> real, y: real)
    requires op.kind == TanhDerivative
    requires env.cosh(env.x) != 0.0
    requires tanh(env.x) * env.cosh(env.x) == sinh(env.x)
    requires env.cosh(env.x) * env.cosh(env.x) - sinh(env.x) * sinh(env.x) == 1.0
    ensures Eval(DoDiff(op).value[0], env).Some?
    ensures TanhGradient(tanh, [env.x], [y])[0] == Eval(DoDiff(op).value[0], env).value * y
  {
    var c := env.cosh(env.x);
    TanhDerivativeGradValue(op, env, c);
    OneMinusSquareOfTanh(tanh(env.x), sinh(env.x), c);
  }
}
