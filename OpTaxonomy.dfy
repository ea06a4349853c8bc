/** The fixed facts of the op classes Sum, ScalarDivision, ACos, ACosh,
    TanhDerivative, Reverse and RectifiedTanh: op number and name, what
    their element overloads op(...) return or throw, how opForDimension
    rebuilds an op over sub-views, and the symbolic derivative doDiff
    builds.  The numeric kernels (acos, acosh, complex acos and division,
    square root, cosh) are parameters. */
module OpTaxonomy {
  import opened Outcomes

  datatype OpKind = Sum | ScalarDivision | ACos | ACosh | TanhDerivative | Reverse | RectifiedTanh

  /** The executioner keeps one op-number table per family. */
  datatype Family = Accumulation | ScalarFamily | TransformFamily

  function FamilyOf(k: OpKind): Family
  {
    match k
    case Sum => Accumulation
    case ScalarDivision => ScalarFamily
    case _ => TransformFamily
  }

  /** opNum(). */
  function OpNum(k: OpKind): int
  {
    match k
    case Sum => 1
    case ScalarDivision => 3
    case ACos => 16
    case ACosh => 16
    case TanhDerivative => 0
    case Reverse => 70
    case RectifiedTanh => 61
  }

  /** name(). */
  function Name(k: OpKind): string
  {
    match k
    case Sum => "sum"
    case ScalarDivision => "div_scalar"
    case ACos => "acos"
    case ACosh => "acosh"
    case TanhDerivative => "tanhderivative"
    case Reverse => "reverse"
    case RectifiedTanh => "rectified_tanh"
  }

  /** isExecSpecial(), where the class itself declares it (None: inherited). */
  function ExecSpecial(k: OpKind): Option<bool>
  {
    if k == Reverse then Some(true) else None
  }

  /** The names tell the classes apart. */
  lemma NamesIdentify(a: OpKind, b: OpKind)
    ensures Name(a) == Name(b) <==> a == b
  {
  }

  /** Within a family the op numbers tell the classes apart, except that
      ACos and ACosh both claim 16. */
  lemma OpNumbersClashOnlyForAcos(a: OpKind, b: OpKind)
    requires a != b && FamilyOf(a) == FamilyOf(b)
    ensures OpNum(a) == OpNum(b) <==> {a, b} == {ACos, ACosh}
  {
    if {a, b} == {ACos, ACosh} {
      assert a == ACos || a == ACosh;
    }
  }

  lemma ReverseMetadata()
    ensures OpNum(Reverse) == 70 && Name(Reverse) == "reverse" && ExecSpecial(Reverse) == Some(true)
    ensures forall k :: ExecSpecial(k).Some? ==> k == Reverse
  {
  }

  // ----- element overloads -----

  datatype Complex = Complex(re: real, im: real)

  /** The eight element overloads op(...); float and double operands are
      both taken as exact reals. */
  datatype Overload =
    | ComplexWithDouble(c: Complex, d: real)
    | ComplexWithFloat(c: Complex, f: real)
    | ComplexWithComplex(c: Complex, other: Complex)
    | FloatWithFloat(f: real, fOther: real)
    | DoubleWithDouble(d: real, dOther: real)
    | DoubleOnly(d: real)
    | FloatOnly(f: real)
    | ComplexOnly(c: Complex)

  predicate IsComplex(o: Overload)
  {
    o.ComplexWithDouble? || o.ComplexWithFloat? || o.ComplexWithComplex? || o.ComplexOnly?
  }

  /** The one-operand overload with the same first operand. */
  function OriginOnly(o: Overload): Overload
  {
    match o
    case ComplexWithDouble(c, _) => ComplexOnly(c)
    case ComplexWithFloat(c, _) => ComplexOnly(c)
    case ComplexWithComplex(c, _) => ComplexOnly(c)
    case FloatWithFloat(f, _) => FloatOnly(f)
    case DoubleWithDouble(d, _) => DoubleOnly(d)
    case _ => o
  }

  function RealOrigin(o: Overload): real
    requires !IsComplex(o)
  {
    match o
    case FloatWithFloat(f, _) => f
    case DoubleWithDouble(d, _) => d
    case DoubleOnly(d) => d
    case FloatOnly(f) => f
  }

  function ComplexOrigin(o: Overload): Complex
    requires IsComplex(o)
  {
    o.c
  }

  /** What an overload call produces: a value, null, a non-finite IEEE
      value (division by zero), or an exception. */
  datatype Outcome =
    | RealValue(r: real)
    | ComplexValue(z: Complex)
    | NullValue
    | NonFinite
    | Raised(e: JavaException)

  datatype Kernels = Kernels(
    acos: real -> real,
    acosh: real -> real,
    complexAcos: Complex -> Complex,
    complexDiv: (Complex, Complex) -> Complex)

  /** The scalar operand of a scalar op: num (a real) or complexNumber, each
      possibly null. */
  datatype ScalarOperand = ScalarOperand(num: Option<real>, complexNumber: Option<Complex>)

  /** The overload `o` of class k; None where the class does not declare it
      (it is inherited from a base class that is not part of this model). */
  function Apply(k: OpKind, s: ScalarOperand, o: Overload, kern: Kernels): Option<Outcome>
  {
    match k
    case Sum =>
      if IsComplex(o) then Some(NullValue) else None
    case ScalarDivision =>
      if IsComplex(o) then
        if s.complexNumber.Some? then Some(ComplexValue(kern.complexDiv(ComplexOrigin(o), s.complexNumber.value)))
        else Some(Raised(NullPointer))
      else if s.num.None? then Some(Raised(NullPointer))
      else if s.num.value == 0.0 then Some(NonFinite)
      else Some(RealValue(RealOrigin(o) / s.num.value))
    case ACos =>
      if IsComplex(o) then Some(ComplexValue(kern.complexAcos(ComplexOrigin(o))))
      else Some(RealValue(kern.acos(RealOrigin(o))))
    case ACosh =>
      if IsComplex(o) then Some(Raised(UnsupportedOperation(None)))
      else Some(RealValue(kern.acosh(RealOrigin(o))))
    case TanhDerivative => None
    case Reverse => Some(Raised(UnsupportedOperation(None)))
    case RectifiedTanh =>
      if IsComplex(o) then Some(NullValue) else Some(RealValue(0.0))
  }

  /** No overload looks at its second operand. */
  lemma SecondOperandIgnored(k: OpKind, s: ScalarOperand, o: Overload, kern: Kernels)
    ensures Apply(k, s, o, kern) == Apply(k, s, OriginOnly(o), kern)
  {
  }

  /** Sum declares only the complex overloads, and they all return null. */
  lemma SumComplexOverloadsAreNull(s: ScalarOperand, o: Overload, kern: Kernels)
    ensures Apply(Sum, s, o, kern).Some? <==> IsComplex(o)
    ensures IsComplex(o) ==> Apply(Sum, s, o, kern) == Some(NullValue)
  {
  }

  /** A real result of ScalarDivision times the scalar gives the operand
      back; the result is null-pointer failure exactly when the scalar the
      overload reads is missing. */
  lemma ScalarDivisionDivides(s: ScalarOperand, o: Overload, kern: Kernels)
    ensures !IsComplex(o) && s.num.Some? && s.num.value != 0.0 ==>
      Apply(ScalarDivision, s, o, kern).value.RealValue? &&
      Apply(ScalarDivision, s, o, kern).value.r * s.num.value == RealOrigin(o)
    ensures Apply(ScalarDivision, s, o, kern) == Some(Raised(NullPointer)) <==>
      (IsComplex(o) && s.complexNumber.None?) || (!IsComplex(o) && s.num.None?)
    ensures IsComplex(o) && s.complexNumber.Some? ==>
      Apply(ScalarDivision, s, o, kern) == Some(ComplexValue(kern.complexDiv(o.c, s.complexNumber.value)))
  {
  }

  /** ACos computes acos of the first operand, real or complex. */
  lemma ACosOverloads(s: ScalarOperand, o: Overload, kern: Kernels)
    ensures !IsComplex(o) ==> Apply(ACos, s, o, kern) == Some(RealValue(kern.acos(RealOrigin(o))))
    ensures IsComplex(o) ==> Apply(ACos, s, o, kern) == Some(ComplexValue(kern.complexAcos(o.c)))
  {
  }

  /** ACosh refuses exactly the complex overloads, with a message-less
      UnsupportedOperationException. */
  lemma ACoshRefusesComplex(s: ScalarOperand, o: Overload, kern: Kernels)
    ensures Apply(ACosh, s, o, kern).Some?
    ensures Apply(ACosh, s, o, kern).value.Raised? <==> IsComplex(o)
    ensures IsComplex(o) ==> Apply(ACosh, s, o, kern).value == Raised(UnsupportedOperation(None))
    ensures !IsComplex(o) ==> Apply(ACosh, s, o, kern).value == RealValue(kern.acosh(RealOrigin(o)))
  {
  }

  /** Every overload of Reverse throws. */
  lemma ReverseRefusesAll(s: ScalarOperand, o: Overload, kern: Kernels)
    ensures Apply(Reverse, s, o, kern) == Some(Raised(UnsupportedOperation(None)))
  {
  }

  /** RectifiedTanh's overloads are stubs: 0 for reals, null for complex. */
  lemma RectifiedTanhIsStub(s: ScalarOperand, o: Overload, kern: Kernels)
    ensures Apply(RectifiedTanh, s, o, kern) == Some(if IsComplex(o) then NullValue else RealValue(0.0))
  {
  }

  // ----- opForDimension -----

  /** An array argument: a whole array, or the vector / tensor along the
      given dimension(s) at position `index` of another view. */
  datatype View =
    | Whole(id: nat)
    | VectorAlong(of: View, index: int, dimension: int)
    | TensorAlong(of: View, index: int, dimensions: seq<int>)

  /** The two opForDimension overloads: one dimension or several. */
  datatype Axes = Axis(d: int) | AxisSet(ds: seq<int>)

  function Along(v: View, index: int, axes: Axes): View
  {
    match axes
    case Axis(d) => VectorAlong(v, index, d)
    case AxisSet(ds) => TensorAlong(v, index, ds)
  }

  /** An op instance: its class, arrays x, y (maybe null) and z, element
      count n, scalar operand and reduction dimensions. */
  datatype Op = Op(kind: OpKind, x: View, y: Option<View>, z: View, n: int,
                   scalar: ScalarOperand, dimensions: seq<int>)

  datatype OpClass = Class(kind: OpKind) | SoftMaxDerivativeClass | RationalTanhDerivativeClass

  datatype ScalarArg = RealScalar(num: real) | ComplexScalar(complexNumber: Option<Complex>)

  /** A constructor call: the class built and the arguments passed (None for
      an argument the chosen constructor does not take, or a null). */
  datatype Construction = Construction(cls: OpClass, x: View, y: Option<View>, z: Option<View>,
                                       n: Option<int>, scalar: Option<ScalarArg>)

  /** opForDimension(index, dimension(s)); `len` gives a view's length(). */
  function OpForDimension(op: Op, index: int, axes: Axes, len: View -> nat): (c: Construction)
    ensures c.x == Along(op.x, index, axes)
    ensures c.cls == Class(op.kind) <==> op.kind != TanhDerivative
    ensures op.kind == TanhDerivative ==> c.cls == SoftMaxDerivativeClass
    ensures op.kind != ScalarDivision ==>
      c.y == (if op.y.Some? then Some(Along(op.y.value, index, axes)) else None)
    ensures op.kind == ScalarDivision ==> c.y.None? && c.z.None? && c.n.None?
    ensures op.kind !in {Sum, ScalarDivision} ==>
      c.z == Some(Along(op.z, index, axes)) && c.n == Some(len(c.x))
    ensures op.kind == Sum ==> c.z.None? && (c.n.Some? <==> op.y.Some?) && (c.n.Some? ==> c.n.value == len(c.x))
    ensures c.scalar.Some? <==> op.kind == ScalarDivision
    ensures op.kind == ScalarDivision ==>
      c.scalar == Some(if op.scalar.num.Some? then RealScalar(op.scalar.num.value)
                       else ComplexScalar(op.scalar.complexNumber))
  {
    var xa := Along(op.x, index, axes);
    var ya := if op.y.Some? then Some(Along(op.y.value, index, axes)) else None;
    match op.kind
    case Sum =>
      if op.y.Some? then Construction(Class(Sum), xa, ya, None, Some(len(xa)), None)
      else Construction(Class(Sum), xa, None, None, None, None)
    case ScalarDivision =>
      var s := if op.scalar.num.Some? then RealScalar(op.scalar.num.value)
               else ComplexScalar(op.scalar.complexNumber);
      Construction(Class(ScalarDivision), xa, None, None, None, Some(s))
    case _ =>
      var cls := if op.kind == TanhDerivative then SoftMaxDerivativeClass else Class(op.kind);
      Construction(cls, xa, ya, Some(Along(op.z, index, axes)), Some(len(xa)), None)
  }

  /** RectifiedTanh.derivative(): a RationalTanhDerivative over the same
      x, y, z and n (None for the classes that inherit derivative()). */
  function Derivative(op: Op): (c: Option<Construction>)
    ensures c.Some? <==> op.kind == RectifiedTanh
    ensures c.Some? ==> (c.value.cls == RationalTanhDerivativeClass &&
      c.value.x == op.x && c.value.y == op.y && c.value.z == Some(op.z) && c.value.n == Some(op.n))
  {
    if op.kind == RectifiedTanh then
      Some(Construction(RationalTanhDerivativeClass, op.x, op.y, Some(op.z), Some(op.n), None))
    else None
  }

  // ----- doDiff -----

  /** A symbolic derivative node: the op's argument, the constant one, the
      i-th incoming gradient, the op's scalar, arithmetic, square root,
      cosh, an integer power, and repeat(value, like, dimensions). */
  datatype Expr =
    | Arg
    | One
    | Grad(i: nat)
    | ScalarValue
    | Div(a: Expr, b: Expr)
    | Mul(a: Expr, b: Expr)
    | Sub(a: Expr, b: Expr)
    | Add(a: Expr, b: Expr)
    | Sqrt(a: Expr)
    | Cosh(a: Expr)
    /** pow(a, 2), the only power the derivatives take. */
    | Square(a: Expr)
    /** neg(a). */
    | Neg(a: Expr)
    | Repeat(a: Expr, like: Expr, dims: seq<int>)

  /** ScalarDivision's derivative as the source builds it. */
  const ScalarDivisionGradAsWritten: Expr := Div(Mul(Grad(0), ScalarValue), Square(Arg))

  /** The derivative of x / scalar, scaled by the incoming gradient. */
  const ScalarDivisionGrad: Expr := Div(Grad(0), ScalarValue)

  /** ACos's derivative as the source builds it: 1 / sqrt(1 - arg^2). */
  const ACosGradAsWritten: Expr := Div(One, Sqrt(Sub(One, Square(Arg))))

  /** The derivative of acos: -1 / sqrt(1 - arg^2). */
  const ACosGrad: Expr := Neg(ACosGradAsWritten)

  /** doDiff(i_v): null for Reverse and RectifiedTanh, otherwise a single
      node.  ScalarDivision's and ACos's nodes are the corrected ones (see
      DoDiffAsWritten). */
  function DoDiff(op: Op): (r: Option<seq<Expr>>)
    ensures r.None? <==> op.kind in {Reverse, RectifiedTanh}
    ensures r.Some? ==> |r.value| == 1
    ensures op.kind == Sum ==> r == Some([Repeat(Grad(0), Arg, op.dimensions)])
  {
    match op.kind
    case Sum => Some([Repeat(Grad(0), Arg, op.dimensions)])
    case ScalarDivision => Some([ScalarDivisionGrad])
    case ACos => Some([ACosGrad])
    case ACosh => Some([Div(One, Mul(Sqrt(Sub(Arg, One)), Sqrt(Add(Arg, One))))])
    case TanhDerivative => Some([Div(One, Square(Cosh(Arg)))])
    case Reverse => None
    case RectifiedTanh => None
  }

  /** doDiff as the source writes it: ScalarDivision yields
      grad * scalar / arg^2 and ACos 1 / sqrt(1 - arg^2). */
  function DoDiffAsWritten(op: Op): (r: Option<seq<Expr>>)
    ensures op.kind !in {ScalarDivision, ACos} ==> r == DoDiff(op)
    ensures op.kind == ScalarDivision ==> r == Some([ScalarDivisionGradAsWritten])
    ensures op.kind == ACos ==> r == Some([ACosGradAsWritten])
  {
    if op.kind == ScalarDivision then Some([ScalarDivisionGradAsWritten])
    else if op.kind == ACos then Some([ACosGradAsWritten])
    else DoDiff(op)
  }

  /** e refers to an incoming gradient. */
  predicate UsesGrad(e: Expr)
  {
    match e
    case Grad(_) => true
    case Div(a, b) => UsesGrad(a) || UsesGrad(b)
    case Mul(a, b) => UsesGrad(a) || UsesGrad(b)
    case Sub(a, b) => UsesGrad(a) || UsesGrad(b)
    case Add(a, b) => UsesGrad(a) || UsesGrad(b)
    case Sqrt(a) => UsesGrad(a)
    case Cosh(a) => UsesGrad(a)
    case Square(a) => UsesGrad(a)
    case Neg(a) => UsesGrad(a)
    case Repeat(a, like, _) => UsesGrad(a) || UsesGrad(like)
    case _ => false
  }

  /** Only Sum and ScalarDivision feed the incoming gradient into their
      derivative; ACos, ACosh and TanhDerivative ignore it. */
  lemma GradientUse(op: Op)
    requires DoDiff(op).Some?
    ensures UsesGrad(DoDiff(op).value[0]) <==> op.kind in {Sum, ScalarDivision}
  {
  }

  /** Values for evaluating a derivative node at one element: the argument,
      the incoming gradients, the op's scalar, and square root and cosh. */
  datatype Env = Env(x: real, grads: seq<real>, scalar: real, sqrt: real -> real, cosh: real -> real)

  function Product(p: real, q: real): real
  {
    p * q
  }

  function Quotient(p: real, q: real): real
    requires q != 0.0
  {
    p / q
  }

  /** The value of a node at one element; None on division by zero or a
      missing gradient.  repeat broadcasts its value, so one element of it
      is the value itself. */
  function Eval(e: Expr, env: Env): Option<real>
  {
    match e
    case Arg => Some(env.x)
    case One => Some(1.0)
    case Grad(i) => if i < |env.grads| then Some(env.grads[i]) else None
    case ScalarValue => Some(env.scalar)
    case Div(a, b) =>
      var va, vb := Eval(a, env), Eval(b, env);
      if va.Some? && vb.Some? && vb.value != 0.0 then Some(Quotient(va.value, vb.value)) else None
    case Mul(a, b) =>
      var va, vb := Eval(a, env), Eval(b, env);
      if va.Some? && vb.Some? then Some(Product(va.value, vb.value)) else None
    case Sub(a, b) =>
      var va, vb := Eval(a, env), Eval(b, env);
      if va.Some? && vb.Some? then Some(va.value - vb.value) else None
    case Add(a, b) =>
      var va, vb := Eval(a, env), Eval(b, env);
      if va.Some? && vb.Some? then Some(va.value + vb.value) else None
    case Sqrt(a) =>
      var va := Eval(a, env);
      if va.Some? then Some(env.sqrt(va.value)) else None
    case Cosh(a) =>
      var va := Eval(a, env);
      if va.Some? then Some(env.cosh(va.value)) else None
    case Square(a) =>
      var va := Eval(a, env);
      if va.Some? then Some(Product(va.value, va.value)) else None
    case Neg(a) =>
      var va := Eval(a, env);
      if va.Some? then Some(-va.value) else None
    case Repeat(a, _, _) => Eval(a, env)
  }

  /** The slope of x -> x / s between x and x + h. */
  function DivisionSlope(x: real, h: real, s: real): real
    requires h != 0.0 && s != 0.0
  {
    ((x + h) / s - x / s) / h
  }

  lemma DivisionSlopeIsReciprocal(x: real, h: real, s: real)
    requires h != 0.0 && s != 0.0
    ensures DivisionSlope(x, h, s) == 1.0 / s
  {
    calc {
      (x + h) / s - x / s;
      h / s;
    }
    assert (h / s) / h == 1.0 / s;
  }

  /** One step of Eval on each node, from the values of its children. */
  lemma EvalMul(env: Env, a: Expr, b: Expr, va: real, vb: real)
    requires Eval(a, env) == Some(va) && Eval(b, env) == Some(vb)
    ensures Eval(Mul(a, b), env) == Some(va * vb)
  {
    assert Product(va, vb) == va * vb;
  }

  lemma EvalDiv(env: Env, a: Expr, b: Expr, va: real, vb: real)
    requires Eval(a, env) == Some(va) && Eval(b, env) == Some(vb) && vb != 0.0
    ensures Eval(Div(a, b), env) == Some(va / vb)
  {
    assert Quotient(va, vb) == va / vb;
  }

  lemma EvalSub(env: Env, a: Expr, b: Expr, va: real, vb: real)
    requires Eval(a, env) == Some(va) && Eval(b, env) == Some(vb)
    ensures Eval(Sub(a, b), env) == Some(va - vb)
  {
  }

  lemma EvalAdd(env: Env, a: Expr, b: Expr, va: real, vb: real)
    requires Eval(a, env) == Some(va) && Eval(b, env) == Some(vb)
    ensures Eval(Add(a, b), env) == Some(va + vb)
  {
  }

  lemma EvalSquare(env: Env, a: Expr, va: real)
    requires Eval(a, env) == Some(va)
    ensures Eval(Square(a), env) == Some(va * va)
  {
    assert Product(va, va) == va * va;
  }

  lemma EvalSqrt(env: Env, a: Expr, va: real)
    requires Eval(a, env) == Some(va)
    ensures Eval(Sqrt(a), env) == Some(env.sqrt(va))
  {
  }

  lemma EvalCosh(env: Env, a: Expr, va: real)
    requires Eval(a, env) == Some(va)
    ensures Eval(Cosh(a), env) == Some(env.cosh(va))
  {
  }

  /** q = a·b is nonzero when a and b are. */
  lemma NonzeroProduct(a: real, b: real, q: real)
    requires q == a * b && a != 0.0 && b != 0.0
    ensures q != 0.0
  {
  }

  lemma EvalLeaves(env: Env)
    ensures Eval(Arg, env) == Some(env.x)
    ensures Eval(One, env) == Some(1.0)
    ensures Eval(ScalarValue, env) == Some(env.scalar)
    ensures |env.grads| >= 1 ==> Eval(Grad(0), env) == Some(env.grads[0])
  {
  }

  /** The corrected ScalarDivision derivative is the incoming gradient times
      the slope of x / scalar, for every step h. */
  lemma ScalarDivisionGradIsChainRule(env: Env, h: real)
    requires |env.grads| >= 1 && env.scalar != 0.0 && h != 0.0
    ensures Eval(ScalarDivisionGrad, env) == Some(env.grads[0] * DivisionSlope(env.x, h, env.scalar))
  {
    CorrectedValue(env, env.grads[0], env.scalar);
    DivisionSlopeIsReciprocal(env.x, h, env.scalar);
    var v := env.grads[0] * DivisionSlope(env.x, h, env.scalar);
    assert v == env.grads[0] / env.scalar;
  }

  /** The corrected node at an element with incoming gradient g and scalar
      s: g / s. */
  lemma CorrectedValue(env: Env, g: real, s: real)
    requires |env.grads| >= 1 && env.grads[0] == g && env.scalar == s && s != 0.0
    ensures Eval(ScalarDivisionGrad, env) == Some(g / s)
  {
    EvalLeaves(env);
    EvalDiv(env, Grad(0), ScalarValue, g, s);
  }

  /** The node as written, at an element with argument x, incoming gradient
      g and scalar s: g·s / x². */
  lemma AsWrittenValue(env: Env, x: real, g: real, s: real)
    requires env.x == x && |env.grads| >= 1 && env.grads[0] == g && env.scalar == s && x != 0.0
    ensures Eval(ScalarDivisionGradAsWritten, env) == Some(g * s / (x * x))
  {
    var q := x * x;
    NonzeroProduct(x, x, q);
    EvalLeaves(env);
    EvalMul(env, Grad(0), ScalarValue, g, s);
    EvalSquare(env, Arg, x);
    EvalDiv(env, Mul(Grad(0), ScalarValue), Square(Arg), g * s, q);
  }

  /** The derivative as written agrees with the corrected one, at an element
      with nonzero argument, gradient and scalar, exactly where arg² equals
      scalar². */
  lemma ScalarDivisionGradAsWrittenAgreesOnlyAtSquare(env: Env, x: real, g: real, s: real)
    requires env.x == x && |env.grads| >= 1 && env.grads[0] == g && env.scalar == s
    requires x != 0.0 && g != 0.0 && s != 0.0
    ensures Eval(ScalarDivisionGradAsWritten, env).Some?
    ensures Eval(ScalarDivisionGradAsWritten, env) == Eval(ScalarDivisionGrad, env) <==> x * x == s * s
  {
    AsWrittenValue(env, x, g, s);
    CorrectedValue(env, g, s);
    QuotientsAgree(g, s, x);
  }

  /** g·s / x² == g / s exactly when x² == s² (g, s and x nonzero). */
  lemma QuotientsAgree(g: real, s: real, x: real)
    requires g != 0.0 && s != 0.0 && x != 0.0
    ensures x * x != 0.0
    ensures g * s / (x * x) == g / s <==> x * x == s * s
  {
    var q := x * x;
    NonzeroProduct(x, x, q);
    if g * s / q == g / s {
      assert g * s == (g / s) * q;
      assert g * s * s == g * q;
      assert g * (s * s - q) == 0.0;
    }
    if q == s * s {
      assert g * s / (s * s) == g / s;
    }
  }

  /** At x = 1 with scalar 2 and incoming gradient 1 the source's node gives
      2, while x / 2 has slope 1/2 everywhere. */
  lemma ScalarDivisionGradAsWrittenCounterexample(env: Env, h: real)
    requires env.x == 1.0 && env.grads == [1.0] && env.scalar == 2.0 && h != 0.0
    ensures Eval(ScalarDivisionGradAsWritten, env) == Some(2.0)
    ensures env.grads[0] * DivisionSlope(env.x, h, env.scalar) == 0.5
  {
    AsWrittenValue(env, 1.0, 1.0, 2.0);
    DivisionSlopeIsReciprocal(env.x, h, env.scalar);
  }

  /** The values the other derivative nodes take at one element. */
  lemma SumGradIsIncoming(op: Op, env: Env)
    requires op.kind == Sum && |env.grads| >= 1
    ensures Eval(DoDiff(op).value[0], env) == Some(env.grads[0])
  {
    EvalLeaves(env);
  }

  lemma EvalNeg(env: Env, a: Expr, va: real)
    requires Eval(a, env) == Some(va)
    ensures Eval(Neg(a), env) == Some(-va)
  {
  }

  /** The source's acos node: 1 / sqrt(1 - x²), with r = sqrt(1 - x²)
      nonzero. */
  lemma ACosGradAsWrittenValue(env: Env, x: real, r: real)
    requires env.x == x && env.sqrt(1.0 - x * x) == r && r != 0.0
    ensures Eval(ACosGradAsWritten, env) == Some(1.0 / r)
  {
    EvalLeaves(env);
    EvalSquare(env, Arg, x);
    EvalSub(env, One, Square(Arg), 1.0, x * x);
    EvalSqrt(env, Sub(One, Square(Arg)), 1.0 - x * x);
    EvalDiv(env, One, Sqrt(Sub(One, Square(Arg))), 1.0, r);
  }

  /** acos: -1 / sqrt(1 - x²), with r = sqrt(1 - x²) nonzero. */
  lemma ACosGradValue(op: Op, env: Env, x: real, r: real)
    requires op.kind == ACos && env.x == x && env.sqrt(1.0 - x * x) == r && r != 0.0
    ensures Eval(DoDiff(op).value[0], env) == Some(-(1.0 / r))
  {
    ACosGradAsWrittenValue(env, x, r);
    EvalNeg(env, ACosGradAsWritten, 1.0 / r);
  }

  /** f falls strictly on [-1, 1], as acos does. */
  ghost predicate FallsOnUnitInterval(f: real -> real)
  {
    forall a, b :: -1.0 <= a < b <= 1.0 ==> f(a) > f(b)
  }

  /** Every difference quotient of such an f inside [-1, 1] is negative. */
  lemma FallingSlopeNegative(f: real -> real, x: real, h: real)
    requires FallsOnUnitInterval(f)
    requires -1.0 <= x <= 1.0 && -1.0 <= x + h <= 1.0 && h != 0.0
    ensures (f(x + h) - f(x)) / h < 0.0
  {
    var d := f(x + h) - f(x);
    if h > 0.0 {
      assert d < 0.0;
      QuotientSign(d, h);
    } else {
      assert -d < 0.0;
      QuotientSign(-d, -h);
      assert (-d) / (-h) == d / h;
    }
  }

  lemma QuotientSign(d: real, h: real)
    requires d < 0.0 && h > 0.0
    ensures d / h < 0.0
  {
    assert (d / h) * h == d;
  }

  /** With a falling acos and a positive root, the corrected node has the
      sign of every difference quotient of acos around x, and the source's
      node the opposite one. */
  lemma ACosGradSign(op: Op, env: Env, x: real, r: real, acos: real -> real, h: real)
    requires op.kind == ACos && env.x == x && env.sqrt(1.0 - x * x) == r && r > 0.0
    requires FallsOnUnitInterval(acos)
    requires -1.0 <= x <= 1.0 && -1.0 <= x + h <= 1.0 && h != 0.0
    ensures (acos(x + h) - acos(x)) / h < 0.0
    ensures Eval(DoDiff(op).value[0], env).Some? && Eval(DoDiff(op).value[0], env).value < 0.0
    ensures Eval(DoDiffAsWritten(op).value[0], env).Some? && Eval(DoDiffAsWritten(op).value[0], env).value > 0.0
  {
    FallingSlopeNegative(acos, x, h);
    ACosGradValue(op, env, x, r);
    ACosGradAsWrittenValue(env, x, r);
  }

  /** At x = 0, where sqrt(1) = 1, the source's node gives +1 while acos
      falls on both sides of 0. */
  lemma ACosGradAsWrittenCounterexample(env: Env, acos: real -> real, h: real)
    requires env.x == 0.0 && env.sqrt(1.0) == 1.0
    requires FallsOnUnitInterval(acos)
    requires 0.0 < h <= 1.0
    ensures Eval(ACosGradAsWritten, env) == Some(1.0)
    ensures (acos(h) - acos(0.0)) / h < 0.0 && (acos(-h) - acos(0.0)) / -h < 0.0
  {
    ACosGradAsWrittenValue(env, 0.0, 1.0);
    FallingSlopeNegative(acos, 0.0, h);
    FallingSlopeNegative(acos, 0.0, -h);
  }

  /** acosh: 1 / (sqrt(x - 1) · sqrt(x + 1)), both roots nonzero. */
  lemma ACoshGradValue(op: Op, env: Env, x: real, lo: real, hi: real)
    requires op.kind == ACosh && env.x == x && env.sqrt(x - 1.0) == lo && env.sqrt(x + 1.0) == hi
    requires lo != 0.0 && hi != 0.0
    ensures Eval(DoDiff(op).value[0], env) == Some(1.0 / (lo * hi))
  {
    var q := lo * hi;
    NonzeroProduct(lo, hi, q);
    EvalLeaves(env);
    EvalSub(env, Arg, One, x, 1.0);
    EvalAdd(env, Arg, One, x, 1.0);
    EvalSqrt(env, Sub(Arg, One), x - 1.0);
    EvalSqrt(env, Add(Arg, One), x + 1.0);
    EvalMul(env, Sqrt(Sub(Arg, One)), Sqrt(Add(Arg, One)), lo, hi);
    EvalDiv(env, One, Mul(Sqrt(Sub(Arg, One)), Sqrt(Add(Arg, One))), 1.0, q);
  }

  /** tanhderivative: 1 / cosh(x)², with c = cosh(x) nonzero. */
  lemma TanhDerivativeGradValue(op: Op, env: Env, c: real)
    requires op.kind == TanhDerivative && env.cosh(env.x) == c && c != 0.0
    ensures Eval(DoDiff(op).value[0], env) == Some(1.0 / (c * c))
  {
    var q := c * c;
    NonzeroProduct(c, c, q);
    EvalLeaves(env);
    EvalCosh(env, Arg, env.x);
    EvalSquare(env, Cosh(Arg), c);
    EvalDiv(env, One, Square(Cosh(Arg)), 1.0, q);
  }
}
