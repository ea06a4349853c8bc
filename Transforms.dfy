/** The static element-wise wrappers of Transforms: which array each one
    hands to the executioner (the caller's array or a copy), whether it goes
    through the private exec guard that refuses a released array, and the
    fixed-target logical ops and reverse.  The element kernels themselves
    (sin, sigmoid, max, ...) are function parameters. */
module Transforms {
  import opened Outcomes
  import opened NDArrays

  const FreedMessage := "NDArray already freed"

  /** How a wrapper builds its op from the caller's array `in` and the flag. */
  datatype Routing =
    /** Executioner called directly with the op over (dup ? in.dup() : in). */
    | Unguarded
    /** exec(dup ? new Op(in.dup()) : new Op(in)): the copy is the op's x. */
    | GuardedCopyIsX
    /** exec(dup ? new Op(in, in.dup()) : new Op(in)): `in` stays the op's x
        and the copy is its z. */
    | GuardedCopyIsZ

  /** The public unary wrappers (a scalar argument such as k, cutoff, base or
      power is part of the kernel). */
  datatype Wrapper =
    | Sin | ATanh | Sinh | Cos | Cosh | ACos | ASin | ATan | Ceil | Relu
    | LeakyRelu | Elu | EluDerivative | LeakyReluCutoff | LeakyReluDerivative
    | SoftPlus | Step | SoftSign | SoftSignDerivative | SoftMax | LogBase
    | Eps | Floor | ScalarMax | ScalarMin
    | Ceiling | HardTanh | HardTanhDerivative | Sigmoid | SigmoidDerivative
    | Sign | Stabilize | Abs | Exp | Identity | PowNumber | Round | Sqrt | Tanh
    | Log | Neg

  function RoutingOf(w: Wrapper): Routing
  {
    match w
    case Sin | ATanh | Sinh | Cos | Cosh | ACos | ASin | ATan | Ceil | Relu
       | LeakyRelu | Elu | EluDerivative | LeakyReluCutoff | LeakyReluDerivative
       | SoftPlus | Step | SoftSign | SoftSignDerivative | SoftMax | LogBase => Unguarded
    case Eps | Floor | ScalarMax | ScalarMin => GuardedCopyIsX
    case _ => GuardedCopyIsZ
  }

  /** The exec guard fires when the op's x is a released array: only guarded
      wrappers check, and with dup a copy-is-x wrapper checks the live copy. */
  predicate GuardFires(routing: Routing, dup: bool, freed: bool)
  {
    routing != Unguarded && freed && !(dup && routing == GuardedCopyIsX)
  }

  /** A released array is refused exactly by the guarded wrappers, and with
      dup only by those that keep the caller's array as x. */
  lemma GuardFiresExactly(w: Wrapper, dup: bool, freed: bool)
    ensures GuardFires(RoutingOf(w), dup, freed) <==>
      freed && ((!dup && RoutingOf(w) != Unguarded) || (dup && RoutingOf(w) == GuardedCopyIsZ))
    ensures !freed ==> !GuardFires(RoutingOf(w), dup, freed)
  {
  }

  /** The two-argument wrapper w(in, dup) with element kernel f.  A guarded
      wrapper refuses a released x with IllegalStateException; otherwise the
      kernel is applied to a fresh copy (dup) or to `in` itself, and that
      array is returned. */
  method ApplyTransform(w: Wrapper, x: NDArray, dup: bool, f: real -> real) returns (r: Result<NDArray>)
    modifies x
    ensures GuardFires(RoutingOf(w), dup, old(x.freed)) ==>
      r == Failure(IllegalState(FreedMessage)) && unchanged(x)
    ensures !GuardFires(RoutingOf(w), dup, old(x.freed)) ==>
      r.Success? && r.value.data == Map(f, old(x.data)) &&
      r.value.shape == old(x.shape) && r.value.ordering == old(x.ordering)
    ensures !GuardFires(RoutingOf(w), dup, old(x.freed)) && dup ==> fresh(r.value) && unchanged(x)
    ensures !GuardFires(RoutingOf(w), dup, old(x.freed)) && !dup ==>
      r.value == x && x.shape == old(x.shape) && x.ordering == old(x.ordering) && x.freed == old(x.freed)
  {
    var routing := RoutingOf(w);
    var target: NDArray;
    if dup {
      target := x.Dup();
    } else {
      target := x;
    }
    // the array the guard inspects: the op's x
    var opX := if dup && routing == GuardedCopyIsX then target else x;
    if routing != Unguarded && opX.freed {
      return Failure(IllegalState(FreedMessage));
    }
    target.data := Map(f, x.data);
    return Success(target);
  }

  /** The call a one-argument wrapper w(in) makes: the wrapper whose
      two-argument form it runs, and the flag it passes. */
  datatype Call = Call(target: Wrapper, dup: bool)

  /** One-argument wrappers pass Nd4j.copyOnOps, except that abs always
      copies; step, softsign and softsignDerivative run softPlus, and
      sigmoidDerivative runs sigmoid. */
  function OneArgumentCall(w: Wrapper, copyOnOps: bool): (c: Call)
    ensures c.target == w <==> w !in {Step, SoftSign, SoftSignDerivative, SigmoidDerivative}
    ensures w in {Step, SoftSign, SoftSignDerivative} ==> c.target == SoftPlus
    ensures w == SigmoidDerivative ==> c.target == Sigmoid
    ensures c.dup <==> copyOnOps || w == Abs
  {
    match w
    case Step | SoftSign | SoftSignDerivative => Call(SoftPlus, copyOnOps)
    case SigmoidDerivative => Call(Sigmoid, copyOnOps)
    case Abs => Call(Abs, true)
    case _ => Call(w, copyOnOps)
  }

  /** A misrouted one-argument wrapper keeps the routing of the wrapper it
      stands for only where both are routed alike: softsign's one-argument
      form is unguarded like softsign itself, sigmoidDerivative's is guarded
      like sigmoidDerivative. */
  lemma OneArgumentKeepsRouting(w: Wrapper, copyOnOps: bool)
    ensures RoutingOf(OneArgumentCall(w, copyOnOps).target) == RoutingOf(w)
  {
  }

  /** w(in) with Nd4j.copyOnOps: the kernel that runs is the target's. */
  method ApplyOneArgument(w: Wrapper, x: NDArray, copyOnOps: bool, kernel: Wrapper -> (real -> real))
    returns (r: Result<NDArray>)
    modifies x
    ensures var c := OneArgumentCall(w, copyOnOps);
      !GuardFires(RoutingOf(c.target), c.dup, old(x.freed)) ==>
        r.Success? && r.value.data == Map(kernel(c.target), old(x.data)) &&
        r.value.shape == old(x.shape) && r.value.ordering == old(x.ordering) &&
        (c.dup ==> fresh(r.value) && unchanged(x)) &&
        (!c.dup ==> r.value == x && x.freed == old(x.freed))
    ensures var c := OneArgumentCall(w, copyOnOps);
      GuardFires(RoutingOf(c.target), c.dup, old(x.freed)) ==>
        r == Failure(IllegalState(FreedMessage)) && unchanged(x)
  {
    var c := OneArgumentCall(w, copyOnOps);
    r := ApplyTransform(c.target, x, c.dup, kernel(c.target));
  }

  /** greaterThanOrEqual / lessThanOrEqual(first, ndArray, dup): the op is
      built over (dup ? first.dup() : first) as x and ndArray as y, writing
      into its x; the guard checks that x. */
  method Compare(first: NDArray, other: NDArray, dup: bool, g: (real, real) -> real) returns (r: Result<NDArray>)
    requires |first.data| == |other.data|
    modifies first
    ensures !dup && old(first.freed) ==> r == Failure(IllegalState(FreedMessage)) && unchanged(first)
    ensures dup || !old(first.freed) ==>
      r.Success? && r.value.data == Zip(g, old(first.data), old(other.data)) &&
      r.value.shape == old(first.shape) && r.value.ordering == old(first.ordering)
    ensures dup ==> r.Success? && fresh(r.value) && unchanged(first)
    ensures !dup && !old(first.freed) ==> r == Success(first) && first.freed == old(first.freed)
  {
    var x := first;
    if dup {
      x := first.Dup();
    }
    if x.freed {
      return Failure(IllegalState(FreedMessage));
    }
    x.data := Zip(g, x.data, other.data);
    return Success(x);
  }

  /** max / min(first, second, dup): `first` is replaced by its copy when dup
      is set, and the op is then built as Max(second, first, first), so the
      guard checks `second` and the result lands in `first` (or its copy). */
  method PairwiseExtremum(first: NDArray, second: NDArray, dup: bool, g: (real, real) -> real)
    returns (r: Result<NDArray>)
    requires |first.data| == |second.data|
    modifies first
    ensures old(second.freed) ==> r == Failure(IllegalState(FreedMessage)) && unchanged(first)
    ensures !old(second.freed) ==>
      r.Success? && r.value.data == Zip(g, old(second.data), old(first.data)) &&
      r.value.shape == old(first.shape) && r.value.ordering == old(first.ordering)
    ensures !old(second.freed) && dup ==> fresh(r.value) && unchanged(first)
    ensures !old(second.freed) && !dup ==> r.value == first && first.freed == old(first.freed)
  {
    var target := first;
    if dup {
      target := first.Dup();
    }
    if second.freed {
      return Failure(IllegalState(FreedMessage));
    }
    target.data := Zip(g, second.data, target.data);
    return Success(target);
  }

  /** pow(ndArray, power) with an array exponent: always written into
      ndArray, whatever Nd4j.copyOnOps says. */
  method PowArray(x: NDArray, power: NDArray, pow: (real, real) -> real) returns (r: Result<NDArray>)
    requires |x.data| == |power.data|
    modifies x
    ensures old(x.freed) ==> r == Failure(IllegalState(FreedMessage)) && unchanged(x)
    ensures !old(x.freed) ==> r == Success(x) && x.data == Zip(pow, old(x.data), old(power.data))
    ensures x.shape == old(x.shape) && x.ordering == old(x.ordering) && x.freed == old(x.freed)
  {
    if x.freed {
      return Failure(IllegalState(FreedMessage));
    }
    x.data := Zip(pow, x.data, power.data);
    return Success(x);
  }

  /** and / or / xor(x, y): a new array with x's shape and ordering receives
      the result; neither input is written and no guard runs. */
  method Logical(x: NDArray, y: NDArray, g: (real, real) -> real) returns (z: NDArray)
    requires |x.data| == |y.data|
    ensures fresh(z)
    ensures z.shape == x.shape && z.ordering == x.ordering
    ensures z.data == Zip(g, x.data, y.data)
  {
    z := new NDArray(Zip(g, x.data, y.data), x.shape, x.ordering);
  }

  /** not(x): a new array with x's shape and ordering receives the result. */
  method Not(x: NDArray, f: real -> real) returns (z: NDArray)
    ensures fresh(z)
    ensures z.shape == x.shape && z.ordering == x.ordering
    ensures z.data == Map(f, x.data)
  {
    z := new NDArray(Map(f, x.data), x.shape, x.ordering);
  }

  /** reverse(x, dup): the Reverse op writes into a new array of x's shape
      and ordering when dup is set, else into x itself; its z is returned. */
  method Reverse(x: NDArray, dup: bool) returns (z: NDArray)
    modifies x
    ensures z.data == Reversed(old(x.data))
    ensures z.shape == old(x.shape) && z.ordering == old(x.ordering)
    ensures dup ==> fresh(z) && unchanged(x)
    ensures !dup ==> z == x && x.freed == old(x.freed)
  {
    if dup {
      z := new NDArray(Reversed(x.data), x.shape, x.ordering);
    } else {
      x.data := Reversed(x.data);
      z := x;
    }
  }

  /** Reversing in place twice restores the array. */
  method ReverseTwiceInPlace(x: NDArray) returns (z: NDArray)
    modifies x
    ensures z == x && x.data == old(x.data)
  {
    z := Reverse(x, false);
    z := Reverse(z, false);
    ReversedTwice(old(x.data));
  }
}
