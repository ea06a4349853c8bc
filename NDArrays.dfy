/** The n-dimensional array handle the transforms and ops work on: its
    elements in storage order, its shape, its ordering ('c' or 'f') and
    whether its memory has been released.  Element kernels are applied
    position by position, so the element sequence is all they need. */
module NDArrays {

  class NDArray {
    var data: seq<real>
    var shape: seq<nat>
    var ordering: char
    var freed: bool

    constructor (data: seq<real>, shape: seq<nat>, ordering: char)
      ensures this.data == data && this.shape == shape && this.ordering == ordering
      ensures !freed
    {
      this.data := data;
      this.shape := shape;
      this.ordering := ordering;
      freed := false;
    }

    /** Number of elements (length()). */
    function Length(): nat
      reads this
    {
      |data|
    }

    /** dup(): a new, live array with the same elements, shape and ordering.
        The elements of a released array are taken to stay readable, so
        dup of a released array copies them too. */
    method Dup() returns (c: NDArray)
      ensures fresh(c)
      ensures c.data == data && c.shape == shape && c.ordering == ordering && !c.freed
    {
      c := new NDArray(data, shape, ordering);
    }
  }

  /** A unary element kernel applied at every position. */
  function Map(f: real -> real, s: seq<real>): (r: seq<real>)
    ensures |r| == |s|
    ensures forall i :: 0 <= i < |s| ==> r[i] == f(s[i])
  {
    seq(|s|, i requires 0 <= i < |s| => f(s[i]))
  }

  /** A pairwise element kernel applied at every position of two arrays of
      the same length. */
  function Zip(g: (real, real) -> real, a: seq<real>, b: seq<real>): (r: seq<real>)
    requires |a| == |b|
    ensures |r| == |a|
    ensures forall i :: 0 <= i < |a| ==> r[i] == g(a[i], b[i])
  {
    seq(|a|, i requires 0 <= i < |a| => g(a[i], b[i]))
  }

  /** The elements in reverse storage order. */
  function Reversed(s: seq<real>): (r: seq<real>)
    ensures |r| == |s|
    ensures forall i :: 0 <= i < |s| ==> r[i] == s[|s| - 1 - i]
  {
    seq(|s|, i requires 0 <= i < |s| => s[|s| - 1 - i])
  }

  /** Reversing twice gives the elements back. */
  lemma ReversedTwice(s: seq<real>)
    ensures Reversed(Reversed(s)) == s
  {
    var r := Reversed(Reversed(s));
    forall i | 0 <= i < |s|
      ensures r[i] == s[i]
    {
      assert Reversed(s)[|s| - 1 - i] == s[i];
    }
  }
}
