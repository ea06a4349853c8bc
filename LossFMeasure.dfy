/** LossFMeasure: 1 - F_beta as a loss for binary classification, with one
    output column (a probability of class 1) or two (class 0, class 1).
    Arrays are rows of reals (one row per example); the activation is the
    identity, so the output is the pre-output. */
module LossFMeasure {
  import opened Outcomes

  const DefaultBeta: real := 1.0

  const BetaMessage := "Invalid value: beta must be > 0. Got: "
  const WidthMessage := "For binary classification: expect output size of 1 or 2. Got: "
  const ScoreArrayMessage :=
    "Cannot compute score array for FMeasure loss function: loss is only defined for minibatches"

  /** The configured loss; beta is final. */
  datatype Loss = Loss(beta: real)

  /** A two-dimensional array: its column count (size(1)) and its rows. */
  datatype Matrix = Matrix(cols: nat, rows: seq<seq<real>>)

  predicate Shaped(m: Matrix)
  {
    forall i :: 0 <= i < |m.rows| ==> |m.rows[i]| == m.cols
  }

  /** labels and output have the same shape; a mask has one entry per row. */
  predicate Compatible(labels: Matrix, output: Matrix, mask: Option<seq<real>>)
  {
    Shaped(labels) && Shaped(output) && labels.cols == output.cols &&
    |labels.rows| == |output.rows| &&
    (mask.Some? ==> |mask.value| == |labels.rows|)
  }

  /** The decimal rendering Java gives a non-negative int. */
  function Decimal(n: nat): (s: string)
    ensures |s| >= 1
    ensures forall i :: 0 <= i < |s| ==> '0' <= s[i] <= '9'
  {
    var d := ['0', '1', '2', '3', '4', '5', '6', '7', '8', '9'];
    if n < 10 then [d[n]] else Decimal(n / 10) + [d[n % 10]]
  }

  /** new LossFMeasure(beta): a beta that is not positive is refused.  The
      message ends with Java's rendering of the double, `render`. */
  function NewLoss(beta: real, render: real -> string): (r: Result<Loss>)
    ensures r.Success? <==> beta > 0.0
    ensures r.Success? ==> r.value.beta == beta
    ensures r.Failure? ==> r.error == UnsupportedOperation(Some(BetaMessage + render(beta)))
  {
    if beta <= 0.0 then Failure(UnsupportedOperation(Some(BetaMessage + render(beta))))
    else Success(Loss(beta))
  }

  /** The no-argument constructor uses beta = 1. */
  lemma DefaultLossIsF1(render: real -> string)
    ensures NewLoss(DefaultBeta, render) == Success(Loss(1.0))
  {
  }

  /** Transforms.not on a label: 1 for a zero label, else 0. */
  function Not(v: real): (r: real)
    ensures r == 1.0 <==> v == 0.0
    ensures r == 0.0 <==> v != 0.0
  {
    if v == 0.0 then 1.0 else 0.0
  }

  /** The per-row indicators and class probabilities.  One column: positive
      is the label, negative its negation, p1 the output and p0 = 1 - p1.
      Two columns: column 1 holds the positive label and p1, column 0 the
      negative label and p0. */
  function Positive(n: nat, row: seq<real>): real
    requires n == 1 || n == 2
    requires |row| == n
  {
    if n == 1 then row[0] else row[1]
  }

  function Negative(n: nat, row: seq<real>): real
    requires n == 1 || n == 2
    requires |row| == n
  {
    if n == 1 then Not(row[0]) else row[0]
  }

  function Class0(n: nat, out: seq<real>): real
    requires n == 1 || n == 2
    requires |out| == n
  {
    if n == 1 then 1.0 - out[0] else out[0]
  }

  function Class1(n: nat, out: seq<real>): real
    requires n == 1 || n == 2
    requires |out| == n
  {
    if n == 1 then out[0] else out[1]
  }

  /** The mask entry of row i; without a mask every row has weight 1 (the
      indicators are then left as they are). */
  function Weight(mask: Option<seq<real>>, i: nat): real
    requires mask.Some? ==> i < |mask.value|
  {
    if mask.Some? then mask.value[i] else 1.0
  }

  /** Soft counts of true positives, false positives and false negatives. */
  datatype Counts = Counts(tp: real, fp: real, fn: real)

  /** One row's contribution, from its label and output rows and its mask
      weight w: the indicators are multiplied by w. */
  function RowCounts(n: nat, row: seq<real>, out: seq<real>, w: real): Counts
    requires n == 1 || n == 2
    requires |row| == n && |out| == n
  {
    var pos, neg := Positive(n, row) * w, Negative(n, row) * w;
    Counts(pos * Class1(n, out), neg * Class1(n, out), pos * Class0(n, out))
  }

  function Add(a: Counts, b: Counts): Counts
  {
    Counts(a.tp + b.tp, a.fp + b.fp, a.fn + b.fn)
  }

  /** The counts over the first k rows: tp = sum pos * p1, fp = sum neg * p1,
      fn = sum pos * p0. */
  function Tally(labels: Matrix, output: Matrix, mask: Option<seq<real>>, k: nat): Counts
    requires Compatible(labels, output, mask)
    requires labels.cols == 1 || labels.cols == 2
    requires k <= |labels.rows|
  {
    if k == 0 then Counts(0.0, 0.0, 0.0)
    else
      Add(Tally(labels, output, mask, k - 1),
          RowCounts(labels.cols, labels.rows[k - 1], output.rows[k - 1], Weight(mask, k - 1)))
  }

  /** The F-measure fraction: numerator (1 + beta^2) tp and denominator
      (1 + beta^2) tp + beta^2 fn + fp. */
  datatype Fraction = Fraction(num: real, den: real)

  function FractionOf(beta: real, c: Counts): (f: Fraction)
    ensures f.den == f.num + beta * beta * c.fn + c.fp
  {
    Fraction((1.0 + beta * beta) * c.tp, (1.0 + beta * beta) * c.tp + beta * beta * c.fn + c.fp)
  }

  /** computeScoreNumDenom: a label width other than 1 or 2 is refused. */
  function NumDenom(loss: Loss, labels: Matrix, output: Matrix, mask: Option<seq<real>>): (r: Result<Fraction>)
    requires Compatible(labels, output, mask)
    ensures r.Failure? <==> labels.cols != 1 && labels.cols != 2
    ensures r.Failure? ==> r.error == UnsupportedOperation(Some(WidthMessage + Decimal(labels.cols)))
    ensures r.Success? ==> r.value == FractionOf(loss.beta, Tally(labels, output, mask, |labels.rows|))
  {
    if labels.cols != 1 && labels.cols != 2 then
      Failure(UnsupportedOperation(Some(WidthMessage + Decimal(labels.cols))))
    else
      Success(FractionOf(loss.beta, Tally(labels, output, mask, |labels.rows|)))
  }

  /** A double result: a real, or the infinity or NaN that Java produces on
      a division by zero. */
  datatype Double = Finite(value: real) | NonFinite

  /** The score of a fraction: 0 for 0/0, else 1 - num/den. */
  function ScoreOf(f: Fraction): (s: Double)
    ensures f.num == 0.0 && f.den == 0.0 ==> s == Finite(0.0)
    ensures f.den != 0.0 ==> s == Finite(1.0 - f.num / f.den)
    ensures s.NonFinite? <==> f.den == 0.0 && f.num != 0.0
  {
    if f.num == 0.0 && f.den == 0.0 then Finite(0.0)
    else if f.den == 0.0 then NonFinite
    else Finite(1.0 - f.num / f.den)
  }

  /** computeScore (the `average` flag is not used by the source). */
  function ComputeScore(loss: Loss, labels: Matrix, output: Matrix, mask: Option<seq<real>>): (r: Result<Double>)
    requires Compatible(labels, output, mask)
    ensures r.Failure? <==> labels.cols != 1 && labels.cols != 2
    ensures r.Success? ==> r.value == ScoreOf(NumDenom(loss, labels, output, mask).value)
  {
    var nd := NumDenom(loss, labels, output, mask);
    if nd.Failure? then Failure(nd.error) else Success(ScoreOf(nd.value))
  }

  /** computeScoreArray is not defined for this loss. */
  function ComputeScoreArray(labels: Matrix, output: Matrix, mask: Option<seq<real>>): (r: Result<Matrix>)
    ensures r == Failure(UnsupportedOperation(Some(ScoreArrayMessage)))
  {
    Failure(UnsupportedOperation(Some(ScoreArrayMessage)))
  }

  /** Values in [0, 1]. */
  predicate Unit(v: real)
  {
    0.0 <= v <= 1.0
  }

  /** Labels and outputs are probabilities and the mask is non-negative. */
  predicate Probabilities(labels: Matrix, output: Matrix, mask: Option<seq<real>>)
  {
    (forall i, j :: 0 <= i < |labels.rows| && 0 <= j < |labels.rows[i]| ==> Unit(labels.rows[i][j])) &&
    (forall i, j :: 0 <= i < |output.rows| && 0 <= j < |output.rows[i]| ==> Unit(output.rows[i][j])) &&
    (mask.Some? ==> forall i :: 0 <= i < |mask.value| ==> mask.value[i] >= 0.0)
  }

  predicate NonnegativeCounts(c: Counts)
  {
    c.tp >= 0.0 && c.fp >= 0.0 && c.fn >= 0.0
  }

  lemma NonnegativeProduct(a: real, b: real, q: real)
    requires a >= 0.0 && b >= 0.0 && q == a * b
    ensures q >= 0.0
  {
  }

  /** A row of probabilities with a non-negative weight contributes
      non-negative counts. */
  lemma RowCountsNonnegative(n: nat, row: seq<real>, out: seq<real>, w: real)
    requires n == 1 || n == 2
    requires |row| == n && |out| == n
    requires forall j :: 0 <= j < n ==> Unit(row[j]) && Unit(out[j])
    requires w >= 0.0
    ensures NonnegativeCounts(RowCounts(n, row, out, w))
  {
    assert Unit(row[0]) && Unit(out[0]);
    var pl, nl, p0, p1 := Positive(n, row), Negative(n, row), Class0(n, out), Class1(n, out);
    assert pl >= 0.0 && nl >= 0.0 && p0 >= 0.0 && p1 >= 0.0 by {
      if n == 2 {
        assert Unit(row[1]) && Unit(out[1]);
      }
    }
    var pos, neg := pl * w, nl * w;
    NonnegativeProduct(pl, w, pos);
    NonnegativeProduct(nl, w, neg);
    NonnegativeProduct(pos, p1, pos * p1);
    NonnegativeProduct(neg, p1, neg * p1);
    NonnegativeProduct(pos, p0, pos * p0);
  }

  /** With probabilities, every soft count is non-negative. */
  lemma {:induction false} TallyNonnegative(labels: Matrix, output: Matrix, mask: Option<seq<real>>, k: nat)
    requires Compatible(labels, output, mask) && Probabilities(labels, output, mask)
    requires labels.cols == 1 || labels.cols == 2
    requires k <= |labels.rows|
    ensures NonnegativeCounts(Tally(labels, output, mask, k))
  {
    if k > 0 {
      TallyNonnegative(labels, output, mask, k - 1);
      var i := k - 1;
      assert Weight(mask, i) >= 0.0;
      RowCountsNonnegative(labels.cols, labels.rows[i], output.rows[i], Weight(mask, i));
    }
  }

  /** Non-negative counts and a positive beta give 0 <= num <= den. */
  lemma FractionOrdered(beta: real, c: Counts)
    requires beta > 0.0 && NonnegativeCounts(c)
    ensures 0.0 <= FractionOf(beta, c).num <= FractionOf(beta, c).den
  {
    var bb := beta * beta;
    NonnegativeProduct(beta, beta, bb);
    NonnegativeProduct(1.0 + bb, c.tp, (1.0 + bb) * c.tp);
    NonnegativeProduct(bb, c.fn, bb * c.fn);
  }

  /** 0 <= num <= den gives a score in [0, 1]. */
  lemma ScoreOfBounded(f: Fraction)
    requires 0.0 <= f.num <= f.den
    ensures ScoreOf(f).Finite? && Unit(ScoreOf(f).value)
  {
    if f.den != 0.0 {
      QuotientAtMostOne(f.num, f.den);
    }
  }

  lemma QuotientAtMostOne(a: real, b: real)
    requires 0.0 <= a <= b && b != 0.0
    ensures 0.0 <= a / b <= 1.0
  {
  }

  /** The documented range: with probabilities for labels and outputs and a
      non-negative mask, the score is a real between 0 (best) and 1. */
  lemma ScoreInUnitInterval(loss: Loss, labels: Matrix, output: Matrix, mask: Option<seq<real>>)
    requires loss.beta > 0.0
    requires Compatible(labels, output, mask) && Probabilities(labels, output, mask)
    requires labels.cols == 1 || labels.cols == 2
    ensures ComputeScore(loss, labels, output, mask).Success?
    ensures ComputeScore(loss, labels, output, mask).value.Finite?
    ensures Unit(ComputeScore(loss, labels, output, mask).value.value)
  {
    var c := Tally(labels, output, mask, |labels.rows|);
    TallyNonnegative(labels, output, mask, |labels.rows|);
    FractionOrdered(loss.beta, c);
    ScoreOfBounded(FractionOf(loss.beta, c));
  }

  /** The column whose entries carry the gradient: the only column with
      one output, column 1 (class 1) with two. */
  function GradColumn(n: nat): nat
  {
    if n == 1 then 0 else 1
  }

  /** The array before its sign and mask are applied: at row i,
      label * (1 + beta^2) / den - num / den^2 on the gradient column and 0
      elsewhere (a nonzero denominator). */
  function Filled(loss: Loss, f: Fraction, labels: Matrix, i: nat, j: nat): real
    requires f.den != 0.0
    requires labels.cols == 1 || labels.cols == 2
    requires Shaped(labels) && i < |labels.rows| && j < labels.cols
  {
    if j == GradColumn(labels.cols) then FilledValue(labels.rows[i][j], loss.beta, f.num, f.den) else 0.0
  }

  /** label * (1 + beta^2) / den - num / den^2. */
  function FilledValue(l: real, beta: real, num: real, den: real): real
    requires den != 0.0
  {
    l * (1.0 + beta * beta) / den - num / (den * den)
  }

  /** dL/dOut at row i, column j: the filled value negated and multiplied by
      the row's mask weight. */
  function GradientEntry(loss: Loss, f: Fraction, labels: Matrix, mask: Option<seq<real>>, i: nat, j: nat): real
    requires f.den != 0.0
    requires labels.cols == 1 || labels.cols == 2
    requires Shaped(labels) && i < |labels.rows| && j < labels.cols
    requires mask.Some? ==> |mask.value| == |labels.rows|
  {
    -Filled(loss, f, labels, i, j) * Weight(mask, i)
  }

  /** computeGradient.  A refused label width fails as in computeScore; a
      0/0 fraction gives a zero array shaped like the output; a zero
      denominator with a nonzero numerator gives infinities or NaN (None
      here).  Otherwise the gradient column is filled with
      label * (1 + beta^2) / den - num / den^2, the array is negated (the
      loss is 1 - F) and each row is multiplied by its mask entry. */
  method ComputeGradient(loss: Loss, labels: Matrix, preOutput: Matrix, mask: Option<seq<real>>)
    returns (r: Result<Option<array2<real>>>)
    requires Compatible(labels, preOutput, mask)
    ensures r.Failure? <==> labels.cols != 1 && labels.cols != 2
    ensures r.Failure? ==> r == Failure(NumDenom(loss, labels, preOutput, mask).error)
    ensures r.Success? ==>
      var f := NumDenom(loss, labels, preOutput, mask).value;
      (r.value.None? <==> f.den == 0.0 && f.num != 0.0) &&
      (r.value.Some? ==>
        var d := r.value.value;
        fresh(d) && d.Length0 == |labels.rows| && d.Length1 == labels.cols &&
        (f.den == 0.0 ==> forall i, j :: 0 <= i < d.Length0 && 0 <= j < d.Length1 ==> d[i, j] == 0.0) &&
        (f.den != 0.0 ==> forall i, j :: 0 <= i < d.Length0 && 0 <= j < d.Length1 ==>
          d[i, j] == GradientEntry(loss, f, labels, mask, i, j)))
  {
    var nd := NumDenom(loss, labels, preOutput, mask);
    if nd.Failure? {
      return Failure(nd.error);
    }
    var f := nd.value;
    var rows, n := |labels.rows|, labels.cols;
    if f.num == 0.0 && f.den == 0.0 {
      var zero := new real[rows, n]((i, j) => 0.0);
      return Success(Some(zero));
    }
    if f.den == 0.0 {
      return Success(None);
    }
    var d := new real[rows, n]((i, j) => 0.0);
    FillGradientColumn(d, loss, f, labels);
    // negi, then muliColumnVector(mask) once the identity activation has
    // passed the array through
    NegateAndMask(d, loss, f, labels, mask);
    return Success(Some(d));
  }

  /** Writes the filled value into the gradient column of a zero array. */
  method FillGradientColumn(d: array2<real>, loss: Loss, f: Fraction, labels: Matrix)
    requires f.den != 0.0
    requires labels.cols == 1 || labels.cols == 2
    requires Shaped(labels)
    requires d.Length0 == |labels.rows| && d.Length1 == labels.cols
    requires forall p, q :: 0 <= p < d.Length0 && 0 <= q < d.Length1 ==> d[p, q] == 0.0
    modifies d
    ensures forall p, q :: 0 <= p < d.Length0 && 0 <= q < d.Length1 ==> d[p, q] == Filled(loss, f, labels, p, q)
  {
    var rows, c := |labels.rows|, GradColumn(labels.cols);
    var i := 0;
    while i < rows
      invariant 0 <= i <= rows
      invariant forall p, q :: 0 <= p < rows && 0 <= q < labels.cols ==>
        d[p, q] == if p < i then Filled(loss, f, labels, p, q) else 0.0
    {
      d[i, c] := Filled(loss, f, labels, i, c);
      i := i + 1;
    }
  }

  /** Negates every entry and multiplies row i by its mask weight. */
  method NegateAndMask(d: array2<real>, loss: Loss, f: Fraction, labels: Matrix, mask: Option<seq<real>>)
    requires f.den != 0.0
    requires labels.cols == 1 || labels.cols == 2
    requires Shaped(labels)
    requires mask.Some? ==> |mask.value| == |labels.rows|
    requires d.Length0 == |labels.rows| && d.Length1 == labels.cols
    requires forall p, q :: 0 <= p < d.Length0 && 0 <= q < d.Length1 ==> d[p, q] == Filled(loss, f, labels, p, q)
    modifies d
    ensures forall p, q :: 0 <= p < d.Length0 && 0 <= q < d.Length1 ==>
      d[p, q] == GradientEntry(loss, f, labels, mask, p, q)
  {
    var rows, n := |labels.rows|, labels.cols;
    var i := 0;
    while i < rows
      invariant 0 <= i <= rows
      invariant forall p, q :: 0 <= p < rows && 0 <= q < n ==>
        d[p, q] == if p < i then GradientEntry(loss, f, labels, mask, p, q)
                   else Filled(loss, f, labels, p, q)
    {
      var j := 0;
      while j < n
        invariant 0 <= j <= n
        invariant forall p, q :: 0 <= p < rows && 0 <= q < n ==>
          d[p, q] == if p < i || (p == i && q < j) then GradientEntry(loss, f, labels, mask, p, q)
                     else Filled(loss, f, labels, p, q)
      {
        d[i, j] := -d[i, j] * Weight(mask, i);
        j := j + 1;
      }
      i := i + 1;
    }
  }

  /** The gradient's meaning.  Moving the class-1 probability of row i by h
      (and the class-0 probability by -h: implicitly with one column, in
      column 0 with two) changes the counts by a shift that is linear in h. */
  function NudgeRow(n: nat, out: seq<real>, h: real): (r: seq<real>)
    requires n == 1 || n == 2
    requires |out| == n
    ensures |r| == n
    ensures Class1(n, r) == Class1(n, out) + h && Class0(n, r) == Class0(n, out) - h
  {
    if n == 1 then [out[0] + h] else [out[0] - h, out[1] + h]
  }

  function Nudge(output: Matrix, i: nat, h: real): (r: Matrix)
    requires Shaped(output) && (output.cols == 1 || output.cols == 2)
    requires i < |output.rows|
    ensures Shaped(r) && r.cols == output.cols && |r.rows| == |output.rows|
    ensures forall k :: 0 <= k < |r.rows| && k != i ==> r.rows[k] == output.rows[k]
    ensures r.rows[i] == NudgeRow(output.cols, output.rows[i], h)
  {
    output.(rows := output.rows[i := NudgeRow(output.cols, output.rows[i], h)])
  }

  /** The change of one row's counts when its class-1 probability moves by h. */
  function Shift(n: nat, row: seq<real>, w: real, h: real): Counts
    requires n == 1 || n == 2
    requires |row| == n
  {
    var pos, neg := Positive(n, row) * w, Negative(n, row) * w;
    Counts(pos * h, neg * h, -(pos * h))
  }

  lemma RowCountsNudge(n: nat, row: seq<real>, out: seq<real>, w: real, h: real)
    requires n == 1 || n == 2
    requires |row| == n && |out| == n
    ensures RowCounts(n, row, NudgeRow(n, out, h), w) == Add(RowCounts(n, row, out, w), Shift(n, row, w, h))
  {
    var pos, neg := Positive(n, row) * w, Negative(n, row) * w;
    var p0, p1 := Class0(n, out), Class1(n, out);
    assert pos * (p1 + h) == pos * p1 + pos * h;
    assert neg * (p1 + h) == neg * p1 + neg * h;
    assert pos * (p0 - h) == pos * p0 - pos * h;
  }

  /** Nudging row i shifts the tally of every prefix that contains row i. */
  lemma {:induction false} TallyNudge(labels: Matrix, output: Matrix, mask: Option<seq<real>>, i: nat, h: real, k: nat)
    requires Compatible(labels, output, mask)
    requires labels.cols == 1 || labels.cols == 2
    requires i < |labels.rows| && k <= |labels.rows|
    ensures Compatible(labels, Nudge(output, i, h), mask)
    ensures Tally(labels, Nudge(output, i, h), mask, k) ==
      if k <= i then Tally(labels, output, mask, k)
      else Add(Tally(labels, output, mask, k), Shift(labels.cols, labels.rows[i], Weight(mask, i), h))
  {
    var moved := Nudge(output, i, h);
    if k > 0 {
      TallyNudge(labels, output, mask, i, h, k - 1);
      var n, r := labels.cols, k - 1;
      var before := Tally(labels, output, mask, r);
      var rc := RowCounts(n, labels.rows[r], output.rows[r], Weight(mask, r));
      var s := Shift(n, labels.rows[i], Weight(mask, i), h);
      if r < i {
        assert moved.rows[r] == output.rows[r];
      } else if r == i {
        RowCountsNudge(n, labels.rows[i], output.rows[i], Weight(mask, i), h);
        AddRegroup(before, rc, s);
      } else {
        assert moved.rows[r] == output.rows[r];
        AddSwap(before, rc, s);
      }
    }
  }

  lemma AddRegroup(a: Counts, b: Counts, c: Counts)
    ensures Add(a, Add(b, c)) == Add(Add(a, b), c)
  {
  }

  lemma AddSwap(a: Counts, b: Counts, c: Counts)
    ensures Add(Add(a, c), b) == Add(Add(a, b), c)
  {
  }

  /** Labels that are a dichotomy: the positive and negative indicators of
      every row add up to 1 (0/1 labels with one column, one-hot rows with
      two). */
  predicate Dichotomous(labels: Matrix)
    requires Shaped(labels) && (labels.cols == 1 || labels.cols == 2)
  {
    forall i :: 0 <= i < |labels.rows| ==>
      Positive(labels.cols, labels.rows[i]) + Negative(labels.cols, labels.rows[i]) == 1.0
  }

  /** The rate at which num moves with the class-1 probability of a row
      whose gradient-column label is l and whose mask weight is w. */
  function Rate(beta: real, l: real, w: real): real
  {
    (1.0 + beta * beta) * l * w
  }

  /** g is the fraction f with num moved by h * a and den by h * w. */
  predicate Moved(f: Fraction, g: Fraction, a: real, w: real, h: real)
  {
    g.num == f.num + h * a && g.den == f.den + h * w
  }

  /** Adding the shift of a dichotomous row moves num by h * a and den by
      h * w, with a the row's rate. */
  lemma FractionShift(beta: real, c: Counts, d: Counts, n: nat, row: seq<real>, w: real, h: real)
    requires n == 1 || n == 2
    requires |row| == n
    requires Positive(n, row) + Negative(n, row) == 1.0
    requires d == Add(c, Shift(n, row, w, h))
    ensures Moved(FractionOf(beta, c), FractionOf(beta, d), Rate(beta, row[GradColumn(n)], w), w, h)
  {
    var bb := beta * beta;
    var pl, nl := Positive(n, row), Negative(n, row);
    var pos, neg := pl * w, nl * w;
    assert pos + neg == w by {
      assert pl * w + nl * w == (pl + nl) * w;
    }
    assert (1.0 + bb) * (c.tp + pos * h) == (1.0 + bb) * c.tp + h * ((1.0 + bb) * pl * w);
    assert bb * (c.fn + -(pos * h)) == bb * c.fn - bb * pos * h;
  }

  /** Nudging row i by h moves the fraction of the whole minibatch. */
  lemma NudgeShiftsFraction(beta: real, labels: Matrix, output: Matrix, mask: Option<seq<real>>, i: nat, h: real)
    requires Compatible(labels, output, mask)
    requires labels.cols == 1 || labels.cols == 2
    requires i < |labels.rows|
    requires Positive(labels.cols, labels.rows[i]) + Negative(labels.cols, labels.rows[i]) == 1.0
    requires Compatible(labels, Nudge(output, i, h), mask)
    ensures Moved(FractionOf(beta, Tally(labels, output, mask, |labels.rows|)),
      FractionOf(beta, Tally(labels, Nudge(output, i, h), mask, |labels.rows|)),
      Rate(beta, labels.rows[i][GradColumn(labels.cols)], Weight(mask, i)), Weight(mask, i), h)
  {
    var rows := |labels.rows|;
    TallyNudge(labels, output, mask, i, h, rows);
    FractionShift(beta, Tally(labels, output, mask, rows), Tally(labels, Nudge(output, i, h), mask, rows),
      labels.cols, labels.rows[i], Weight(mask, i), h);
  }

  lemma NonzeroProduct(a: real, b: real, q: real)
    requires q == a * b && a != 0.0 && b != 0.0
    ensures q != 0.0
  {
  }

  lemma CrossDifference(num: real, den: real, num2: real, den2: real, p: real)
    requires den != 0.0 && den2 != 0.0 && p == den * den2
    ensures num / den - num2 / den2 == (num * den2 - num2 * den) / p
  {
  }

  /** 1 - num2 / den2 minus 1 - num / den, over h, when num2 = num + h a
      and den2 = den + h b. */
  lemma QuotientRuleDifference(num: real, den: real, a: real, b: real, h: real, num2: real, den2: real)
    requires den != 0.0 && h != 0.0 && den2 != 0.0
    requires num2 == num + h * a && den2 == den + h * b
    ensures den * den2 != 0.0
    ensures ((1.0 - num2 / den2) - (1.0 - num / den)) / h == -(a * den - num * b) / (den * den2)
  {
    var p := den * den2;
    NonzeroProduct(den, den2, p);
    CrossDifference(num, den, num2, den2, p);
    assert num * den2 - num2 * den == h * (num * b - a * den);
  }

  /** entry is -(a * den - num * w) / den^2: the derivative of the score
      1 - num / den at h = 0 when num moves by h * a and den by h * w. */
  predicate QuotientRuleEntry(f: Fraction, a: real, w: real, entry: real)
  {
    f.den != 0.0 && f.den * f.den != 0.0 && entry == -(a * f.den - f.num * w) / (f.den * f.den)
  }

  /** The entry -q * w, q the filled value, in quotient-rule form. */
  lemma GradientAlgebra(beta: real, l: real, w: real, f: Fraction, q: real, entry: real)
    requires f.den != 0.0
    requires q == FilledValue(l, beta, f.num, f.den)
    requires entry == -q * w
    ensures QuotientRuleEntry(f, Rate(beta, l, w), w, entry)
  {
    var p := f.den * f.den;
    NonzeroProduct(f.den, f.den, p);
    assert q == (l * (1.0 + beta * beta) * f.den - f.num) / p;
    assert q * w == (l * (1.0 + beta * beta) * f.den - f.num) * w / p;
  }

  /** The slope facts about the score 1 - num / den when g is f moved by
      (h * a, h * w): `entry` is the derivative the quotient rule gives at
      h = 0, and the exact difference quotient of the score over h is the
      same expression with den^2 replaced by den * (den + h * w). */
  predicate ScoreSlope(f: Fraction, g: Fraction, a: real, w: real, h: real, entry: real)
  {
    f.den != 0.0 && g.den != 0.0 && h != 0.0 && f.den * g.den != 0.0 &&
    Moved(f, g, a, w, h) && QuotientRuleEntry(f, a, w, entry) &&
    (ScoreOf(g).value - ScoreOf(f).value) / h == -(a * f.den - f.num * w) / (f.den * g.den)
  }

  /** The slope facts for g = f moved by (h * a, h * w). */
  lemma FractionSlope(f: Fraction, g: Fraction, a: real, w: real, h: real, entry: real)
    requires g.den != 0.0 && h != 0.0
    requires Moved(f, g, a, w, h) && QuotientRuleEntry(f, a, w, entry)
    ensures ScoreSlope(f, g, a, w, h, entry)
  {
    ScoreDifference(f, g, a, w, h);
  }

  lemma ScoreDifference(f: Fraction, g: Fraction, a: real, w: real, h: real)
    requires f.den != 0.0 && g.den != 0.0 && h != 0.0 && Moved(f, g, a, w, h)
    ensures f.den * g.den != 0.0
    ensures (ScoreOf(g).value - ScoreOf(f).value) / h == -(a * f.den - f.num * w) / (f.den * g.den)
  {
    assert ScoreOf(f).value == 1.0 - f.num / f.den;
    assert ScoreOf(g).value == 1.0 - g.num / g.den;
    QuotientRuleDifference(f.num, f.den, a, w, h, g.num, g.den);
  }

  /** What computeGradient computes.  With dichotomous labels, nudging the
      class-1 probability of row i by h moves num by h * a and den by h * w
      (w the row's mask weight, a its rate); the gradient entry at row i is
      then the derivative of the score at h = 0, and the exact difference
      quotient of the score differs from it only in its denominator (see
      ScoreSlope). */
  lemma {:induction false} GradientIsScoreSlope(loss: Loss, labels: Matrix, output: Matrix, mask: Option<seq<real>>, i: nat, h: real)
    requires Compatible(labels, output, mask)
    requires labels.cols == 1 || labels.cols == 2
    requires Dichotomous(labels)
    requires i < |labels.rows| && h != 0.0
    requires NumDenom(loss, labels, output, mask).value.den != 0.0
    requires Compatible(labels, Nudge(output, i, h), mask)
    requires NumDenom(loss, labels, Nudge(output, i, h), mask).value.den != 0.0
    ensures ScoreSlope(NumDenom(loss, labels, output, mask).value, NumDenom(loss, labels, Nudge(output, i, h), mask).value,
      Rate(loss.beta, labels.rows[i][GradColumn(labels.cols)], Weight(mask, i)), Weight(mask, i), h,
      GradientEntry(loss, NumDenom(loss, labels, output, mask).value, labels, mask, i, GradColumn(labels.cols)))
  {
    var f := NumDenom(loss, labels, output, mask).value;
    var g := NumDenom(loss, labels, Nudge(output, i, h), mask).value;
    var l, w := labels.rows[i][GradColumn(labels.cols)], Weight(mask, i);
    assert Positive(labels.cols, labels.rows[i]) + Negative(labels.cols, labels.rows[i]) == 1.0;
    NudgeShiftsFraction(loss.beta, labels, output, mask, i, h);
    var q := Filled(loss, f, labels, i, GradColumn(labels.cols));
    GradientAlgebra(loss.beta, l, w, f, q, GradientEntry(loss, f, labels, mask, i, GradColumn(labels.cols)));
    FractionSlope(f, g, Rate(loss.beta, l, w), w, h, GradientEntry(loss, f, labels, mask, i, GradColumn(labels.cols)));
  }
}
