/** The common part of the index accumulations (argmax-like reductions):
    the graph constructors' null check, the array constructors and init,
    the zero elements, how two sub-results are combined through the
    concrete op's `update`, and the final-result field.  `update` and the
    global data type are parameters; BaseOp, which holds x, y, z, n and
    extraArgs, is taken to set those fields in its init. */
module IndexAccumulation {
  import opened Outcomes
  import opened NDArrays
  import OpTaxonomy

  // ----- graph constructors -----

  /** A node of the computation graph, referred to by identity. */
  datatype Function = Function(id: nat)

  /** An op built from graph nodes: its arguments (a null second argument
      is kept) and reduction dimensions. */
  datatype GraphOp = GraphOp(args: seq<Option<Function>>, dimensions: seq<int>)

  const NullInputMessage := "Input not null variable."

  /** BaseIndexAccumulation(sameDiff, i_v, dimensions). */
  function FromFunction(iv: Option<Function>, dimensions: seq<int>): (r: Result<GraphOp>)
    ensures r.Failure? <==> iv.None?
    ensures r.Failure? ==> r.error == IllegalArgument(NullInputMessage)
    ensures r.Success? ==> r.value.args == [iv] && r.value.dimensions == dimensions
  {
    if iv.None? then Failure(IllegalArgument(NullInputMessage))
    else Success(GraphOp([iv], dimensions))
  }

  /** BaseIndexAccumulation(sameDiff, i_v, i_v2, dimensions): the
      constructor's own null check covers only the first node.  The graph
      validation it then runs on the second node is not part of this model,
      so a null second node is not rejected here. */
  function FromFunctions(iv: Option<Function>, iv2: Option<Function>, dimensions: seq<int>): (r: Result<GraphOp>)
    ensures r.Failure? <==> iv.None?
    ensures r.Failure? ==> r.error == IllegalArgument(NullInputMessage)
    ensures r.Success? ==> r.value.args == [iv, iv2] && r.value.dimensions == dimensions
  {
    if iv.None? then Failure(IllegalArgument(NullInputMessage))
    else Success(GraphOp([iv, iv2], dimensions))
  }

  /** The constructor's own null check lets a null second node through when
      the first is present, and both nodes are kept in order.  What the graph
      validation run on the second node does with null is not modelled. */
  lemma SecondNodeUnchecked(iv: Function, dimensions: seq<int>)
    ensures FromFunctions(Some(iv), None, dimensions) == Success(GraphOp([Some(iv), None], dimensions))
    ensures FromFunctions(Some(iv), None, dimensions).value.args[0] == FromFunction(Some(iv), dimensions).value.args[0]
  {
  }

  // ----- zero elements -----

  datatype Pair = Pair(value: real, index: int)

  function ZeroDouble(): real { 0.0 }

  /** zeroFloat(), 0.0f taken as the exact real 0. */
  function ZeroFloat(): real { 0.0 }

  /** zeroPair(): zeroDouble() with index -1, an index no element has. */
  function ZeroPair(): (p: Pair)
    ensures p.value == ZeroDouble() && p.index < 0
  {
    Pair(ZeroDouble(), -1)
  }

  function ZeroComplex(): (c: OpTaxonomy.Complex)
    ensures c.re == ZeroDouble() && c.im == ZeroDouble()
  {
    OpTaxonomy.Complex(0.0, 0.0)
  }

  // ----- init -----

  /** Nd4j.dataType(), the global element type. */
  datatype DataType = Double | Float | Half | OtherType

  /** An extra argument init installs: the zero of the element type. */
  datatype ExtraArg = DoubleArg(d: real) | FloatArg(f: real) | HalfArg(h: real)

  /** The extra arguments after init, from those before it: [zero] for the
      three floating types, where zeroHalf is what the inherited zeroHalf()
      yields, and untouched for any other type. */
  function ExtraArgsAfterInit(dt: DataType, zeroHalf: real, before: Option<seq<ExtraArg>>): (r: Option<seq<ExtraArg>>)
  {
    match dt
    case Double => Some([DoubleArg(ZeroDouble())])
    case Float => Some([FloatArg(ZeroFloat())])
    case Half => Some([HalfArg(zeroHalf)])
    case OtherType => before
  }

  /** init only ever installs one zero of the matching type, or leaves the
      arguments alone; running it again changes nothing. */
  lemma InitArguments(dt: DataType, zeroHalf: real, before: Option<seq<ExtraArg>>)
    ensures dt == OtherType ==> ExtraArgsAfterInit(dt, zeroHalf, before) == before
    ensures dt != OtherType ==>
      ExtraArgsAfterInit(dt, zeroHalf, before).Some? && |ExtraArgsAfterInit(dt, zeroHalf, before).value| == 1
    ensures dt == Double ==> ExtraArgsAfterInit(dt, zeroHalf, before).value[0] == DoubleArg(0.0)
    ensures dt == Float ==> ExtraArgsAfterInit(dt, zeroHalf, before).value[0] == FloatArg(0.0)
    ensures dt == Half ==> ExtraArgsAfterInit(dt, zeroHalf, before).value[0] == HalfArg(zeroHalf)
    ensures ExtraArgsAfterInit(dt, zeroHalf, ExtraArgsAfterInit(dt, zeroHalf, before)) ==
      ExtraArgsAfterInit(dt, zeroHalf, before)
  {
  }

  // ----- combineSubResults -----

  /** combineSubResults(first, idxFirst, second, idxSecond) for doubles and
      floats: the index `update` picks. */
  function CombineIndices(first: real, idxFirst: int, second: real, idxSecond: int,
                          update: (real, int, real, int) -> int): (idx: int)
    ensures idx == update(first, idxFirst, second, idxSecond)
  {
    update(first, idxFirst, second, idxSecond)
  }

  /** combineSubResults(first, second) on (value, index) pairs: the pair
      whose index `update` picks, first when it picks first's index. */
  function CombinePairs(first: Pair, second: Pair, update: (real, int, real, int) -> int): (r: Pair)
    ensures r == first || r == second
    ensures update(first.value, first.index, second.value, second.index) == first.index ==> r == first
    ensures update(first.value, first.index, second.value, second.index) != first.index ==> r == second
  {
    var idxOut := update(first.value, first.index, second.value, second.index);
    if idxOut == first.index then first else second
  }

  /** On equal indices the first pair wins when update answers with that
      index; an index that is neither hands the win to the second pair. */
  lemma EqualIndicesFirstWins(first: Pair, second: Pair, update: (real, int, real, int) -> int)
    requires first.index == second.index
    ensures update(first.value, first.index, second.value, second.index) in {first.index, second.index} ==>
      CombinePairs(first, second, update) == first
    ensures update(first.value, first.index, second.value, second.index) !in {first.index, second.index} ==>
      CombinePairs(first, second, update) == second
  {
  }

  /** When update picks one of the two indices, the pair combinator and the
      scalar one agree on the winning index. */
  lemma PairAndScalarCombineAgree(first: Pair, second: Pair, update: (real, int, real, int) -> int)
    requires update(first.value, first.index, second.value, second.index) in {first.index, second.index}
    ensures CombinePairs(first, second, update).index ==
      CombineIndices(first.value, first.index, second.value, second.index, update)
  {
  }

  /** An update of the usual kind: the second index when its value is
      strictly better, else the first. */
  ghost predicate SelectsBy(update: (real, int, real, int) -> int, better: (real, real) -> bool)
  {
    forall v1, i1, v2, i2 :: update(v1, i1, v2, i2) == if better(v2, v1) then i2 else i1
  }

  /** `better` is a strict weak order (as > and < are). */
  ghost predicate StrictWeakOrder(better: (real, real) -> bool)
  {
    (forall a :: !better(a, a)) &&
    (forall a, b, c :: better(a, b) && better(b, c) ==> better(a, c)) &&
    (forall a, b, c :: better(a, c) ==> better(a, b) || better(b, c))
  }

  /** For such an update, sub-results may be combined in any grouping: the
      winner of three distinct indices does not depend on which two are
      combined first. */
  lemma CombineAssociative(a: Pair, b: Pair, c: Pair, update: (real, int, real, int) -> int,
                           better: (real, real) -> bool)
    requires SelectsBy(update, better) && StrictWeakOrder(better)
    requires a.index != b.index && b.index != c.index && a.index != c.index
    ensures CombinePairs(CombinePairs(a, b, update), c, update) ==
            CombinePairs(a, CombinePairs(b, c, update), update)
  {
    var ab := CombinePairs(a, b, update);
    var bc := CombinePairs(b, c, update);
    assert ab == if better(b.value, a.value) then b else a;
    assert bc == if better(c.value, b.value) then c else b;
    assert CombinePairs(ab, c, update) == if better(c.value, ab.value) then c else ab;
    assert CombinePairs(a, bc, update) == if better(bc.value, a.value) then bc else a;
  }

  /** With distinct indices the winner's value is at least as good as the
      loser's. */
  lemma CombineKeepsBest(a: Pair, b: Pair, update: (real, int, real, int) -> int, better: (real, real) -> bool)
    requires SelectsBy(update, better) && StrictWeakOrder(better)
    requires a.index != b.index
    ensures !better(a.value, CombinePairs(a, b, update).value)
    ensures !better(b.value, CombinePairs(a, b, update).value)
  {
  }

  // ----- the op object -----

  class IndexAccumulationOp {
    var x: NDArray
    var y: Option<NDArray>
    var z: NDArray
    var n: int
    var extraArgs: Option<seq<ExtraArg>>
    var finalResult: int

    /** BaseIndexAccumulation(x, y, z, n): the base constructor stores the
        four arrays and count, then the private init() re-initialises with
        init(x, y, x, x.length()), so z becomes x and n the length of x
        whatever was passed. */
    constructor (x: NDArray, y: Option<NDArray>, z: NDArray, n: int, dt: DataType, zeroHalf: real)
      ensures this.x == x && this.y == y && this.z == x && this.n == |x.data|
      ensures extraArgs == ExtraArgsAfterInit(dt, zeroHalf, None)
      ensures finalResult == 0
    {
      this.x := x;
      this.y := y;
      this.z := z;
      this.n := n;
      extraArgs := None;
      finalResult := 0;
      new;
      Init(this.x, this.y, this.x, |this.x.data|, dt, zeroHalf);
    }

    /** init(x, y, z, n): the base init stores the fields, then the zero of
        the global data type becomes the single extra argument. */
    method Init(x: NDArray, y: Option<NDArray>, z: NDArray, n: int, dt: DataType, zeroHalf: real)
      modifies this
      ensures this.x == x && this.y == y && this.z == z && this.n == n
      ensures extraArgs == ExtraArgsAfterInit(dt, zeroHalf, old(extraArgs))
      ensures finalResult == old(finalResult)
    {
      this.x := x;
      this.y := y;
      this.z := z;
      this.n := n;
      if dt == Double {
        extraArgs := Some([DoubleArg(ZeroDouble())]);
      } else if dt == Float {
        extraArgs := Some([FloatArg(ZeroFloat())]);
      } else if dt == Half {
        extraArgs := Some([HalfArg(zeroHalf)]);
      }
    }

    /** getFinalResult(). */
    function FinalResult(): int
      reads this
    {
      finalResult
    }

    /** setFinalResult(idx): getFinalResult() then yields idx, and nothing
        else changes. */
    method SetFinalResult(idx: int)
      modifies this
      ensures FinalResult() == idx
      ensures x == old(x) && y == old(y) && z == old(z) && n == old(n) && extraArgs == old(extraArgs)
    {
      finalResult := idx;
    }

    /** BaseIndexAccumulation(x, y, n): this(x, y, x, n). */
    static method WithCount(x: NDArray, y: NDArray, n: int, dt: DataType, zeroHalf: real)
      returns (op: IndexAccumulationOp)
      ensures fresh(op)
      ensures op.x == x && op.y == Some(y) && op.z == x && op.n == |x.data|
      ensures op.extraArgs == ExtraArgsAfterInit(dt, zeroHalf, None)
    {
      op := new IndexAccumulationOp(x, Some(y), x, n, dt, zeroHalf);
    }

    /** BaseIndexAccumulation(x): this(x, null, x, x.length()). */
    static method Over(x: NDArray, dt: DataType, zeroHalf: real) returns (op: IndexAccumulationOp)
      ensures fresh(op)
      ensures op.x == x && op.y == None && op.z == x && op.n == |x.data|
      ensures op.extraArgs == ExtraArgsAfterInit(dt, zeroHalf, None)
    {
      op := new IndexAccumulationOp(x, None, x, |x.data|, dt, zeroHalf);
    }

    /** BaseIndexAccumulation(x, y): this(x, y, x, x.length()). */
    static method OverPair(x: NDArray, y: NDArray, dt: DataType, zeroHalf: real) returns (op: IndexAccumulationOp)
      ensures fresh(op)
      ensures op.x == x && op.y == Some(y) && op.z == x && op.n == |x.data|
      ensures op.extraArgs == ExtraArgsAfterInit(dt, zeroHalf, None)
    {
      op := new IndexAccumulationOp(x, Some(y), x, |x.data|, dt, zeroHalf);
    }
  }

  /** Setting the final result and reading it back gives the index set. */
  method FinalResultRoundTrip(op: IndexAccumulationOp, idx: int) returns (read: int)
    modifies op
    ensures read == idx
  {
    op.SetFinalResult(idx);
    read := op.FinalResult();
  }
}
