/** Sum's accumulation step.  Every update overload adds the element x to
    the running accumulator and ignores the optional second operand y;
    the complex overloads add componentwise (a real x adds to the real
    part).  The executioner folds update over the elements starting from
    the accumulator's zero; that fold is Fold here.  Float and double
    operands are both taken as exact reals. */
module SumAccumulation {
  import opened OpTaxonomy

  /** update(accum, x) for double and float. */
  function Update(accum: real, x: real): real
  {
    accum + x
  }

  /** update(accum, x, y) for double and float: y plays no part. */
  function UpdateWithY(accum: real, x: real, y: real): (r: real)
    ensures r - accum == x
  {
    accum + x
  }

  /** IComplexNumber.add of a complex number. */
  function ComplexAdd(a: Complex, b: Complex): (r: Complex)
    ensures r.re - a.re == b.re && r.im - a.im == b.im
  {
    Complex(a.re + b.re, a.im + b.im)
  }

  /** update(accum, x) and update(accum, x, y) with a complex accumulator and
      a double x (y a double). */
  function ComplexUpdateReal(accum: Complex, x: real): (r: Complex)
    ensures r.im == accum.im && r.re - accum.re == x
  {
    ComplexAdd(accum, Complex(x, 0.0))
  }

  /** update(accum, x), update(accum, x, y) and update(accum, x, yDouble)
      with a complex x. */
  function ComplexUpdate(accum: Complex, x: Complex): (r: Complex)
    ensures r.re - accum.re == x.re && r.im - accum.im == x.im
  {
    ComplexAdd(accum, x)
  }

  /** The second operand never matters, and the three-operand form is the
      two-operand one. */
  lemma UpdateIgnoresY(accum: real, x: real, y1: real, y2: real)
    ensures UpdateWithY(accum, x, y1) == UpdateWithY(accum, x, y2) == Update(accum, x)
  {
  }

  /** A complex accumulator fed a real x moves only in its real part, and
      exactly as the real accumulator would. */
  lemma ComplexUpdateAgreesWithReal(accum: Complex, x: real)
    ensures ComplexUpdateReal(accum, x) == ComplexUpdate(accum, Complex(x, 0.0))
    ensures ComplexUpdateReal(accum, x).re == Update(accum.re, x)
  {
  }

  /** Folding update over the elements, left to right, from `accum`. */
  function Fold(s: seq<real>, accum: real): real
    decreases |s|
  {
    if |s| == 0 then accum else Fold(s[1..], Update(accum, s[0]))
  }

  /** The three-operand fold over the elements of x paired with those of y. */
  function FoldWithY(xs: seq<real>, ys: seq<real>, accum: real): real
    requires |xs| == |ys|
    decreases |xs|
  {
    if |xs| == 0 then accum else FoldWithY(xs[1..], ys[1..], UpdateWithY(accum, xs[0], ys[0]))
  }

  /** The complex fold of a sequence of complex elements. */
  function ComplexFold(s: seq<Complex>, accum: Complex): Complex
    decreases |s|
  {
    if |s| == 0 then accum else ComplexFold(s[1..], ComplexUpdate(accum, s[0]))
  }

  /** The mathematical sum of a sequence, taken from the right. */
  function SeqSum(s: seq<real>): real
    decreases |s|
  {
    if |s| == 0 then 0.0 else s[0] + SeqSum(s[1..])
  }

  function Re(s: seq<Complex>): (r: seq<real>)
    ensures |r| == |s| && forall i :: 0 <= i < |s| ==> r[i] == s[i].re
  {
    seq(|s|, i requires 0 <= i < |s| => s[i].re)
  }

  function Im(s: seq<Complex>): (r: seq<real>)
    ensures |r| == |s| && forall i :: 0 <= i < |s| ==> r[i] == s[i].im
  {
    seq(|s|, i requires 0 <= i < |s| => s[i].im)
  }

  /** The fold from any accumulator adds the sum of the elements to it. */
  lemma {:induction false} FoldAddsSum(s: seq<real>, accum: real)
    ensures Fold(s, accum) == accum + SeqSum(s)
    decreases |s|
  {
    if |s| > 0 {
      FoldAddsSum(s[1..], Update(accum, s[0]));
    }
  }

  /** Folding from zero gives the sum. */
  lemma FoldIsSum(s: seq<real>)
    ensures Fold(s, 0.0) == SeqSum(s)
  {
    FoldAddsSum(s, 0.0);
  }

  /** Folding a concatenation folds the second part from the first part's
      result, so sub-results can be accumulated piecewise. */
  lemma {:induction false} FoldConcat(s: seq<real>, t: seq<real>, accum: real)
    ensures Fold(s + t, accum) == Fold(t, Fold(s, accum))
    decreases |s|
  {
    if |s| > 0 {
      assert (s + t)[1..] == s[1..] + t;
      FoldConcat(s[1..], t, Update(accum, s[0]));
    } else {
      assert s + t == t;
    }
  }

  /** The order of the elements does not matter: folding the reverse
      concatenation gives the same value. */
  lemma FoldSwap(s: seq<real>, t: seq<real>, accum: real)
    ensures Fold(s + t, accum) == Fold(t + s, accum)
  {
    FoldAddsSum(s + t, accum);
    FoldAddsSum(t + s, accum);
    SumConcat(s, t);
    SumConcat(t, s);
  }

  lemma {:induction false} SumConcat(s: seq<real>, t: seq<real>)
    ensures SeqSum(s + t) == SeqSum(s) + SeqSum(t)
    decreases |s|
  {
    if |s| > 0 {
      assert (s + t)[1..] == s[1..] + t;
      SumConcat(s[1..], t);
    } else {
      assert s + t == t;
    }
  }

  /** The three-operand fold ignores y altogether. */
  lemma {:induction false} FoldWithYIsFold(xs: seq<real>, ys: seq<real>, accum: real)
    requires |xs| == |ys|
    ensures FoldWithY(xs, ys, accum) == Fold(xs, accum)
    decreases |xs|
  {
    if |xs| > 0 {
      FoldWithYIsFold(xs[1..], ys[1..], Update(accum, xs[0]));
    }
  }

  /** The complex fold sums the real parts and the imaginary parts apart. */
  lemma {:induction false} ComplexFoldComponents(s: seq<Complex>, accum: Complex)
    ensures ComplexFold(s, accum) == Complex(Fold(Re(s), accum.re), Fold(Im(s), accum.im))
    decreases |s|
  {
    if |s| > 0 {
      assert Re(s)[1..] == Re(s[1..]);
      assert Im(s)[1..] == Im(s[1..]);
      ComplexFoldComponents(s[1..], ComplexUpdate(accum, s[0]));
    }
  }
}
