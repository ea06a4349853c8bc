/** Row-major ("c" order) addressing of multi-dimensional arrays: the linear
    offset of an index tuple, its inverse, and the bounds that make them
    agree.  Used to lay the 6-D im2col patch tensor and the 4-D image out in
    a flat buffer. */
module MixedRadix {

  function Front<T>(s: seq<T>): seq<T>
    requires |s| > 0
  {
    s[..|s| - 1]
  }

  function Last<T>(s: seq<T>): T
    requires |s| > 0
  {
    s[|s| - 1]
  }

  /** Number of elements of an array of the given shape. */
  function Product(shape: seq<nat>): nat
  {
    if |shape| == 0 then 1 else Product(Front(shape)) * Last(shape)
  }

  /** `idx` addresses an element of an array of this shape. */
  predicate InBounds(shape: seq<nat>, idx: seq<int>)
  {
    |idx| == |shape| && forall k :: 0 <= k < |shape| ==> 0 <= idx[k] < shape[k]
  }

  /** Row-major linear offset of an index tuple (last index varies fastest). */
  function Encode(shape: seq<nat>, idx: seq<int>): int
    requires |idx| == |shape|
  {
    if |shape| == 0 then 0 else Encode(Front(shape), Front(idx)) * Last(shape) + Last(idx)
  }

  lemma DivBelow(t: int, p: nat, l: nat)
    requires 0 <= t < p * l
    ensures l > 0 && 0 <= t / l < p
  {
    assert l != 0;
    assert (t / l) * l <= t;
    assert (p - t / l) * l > 0;
  }

  /** The index tuple whose row-major offset is `t`. */
  function Decode(shape: seq<nat>, t: int): (idx: seq<int>)
    requires 0 <= t < Product(shape)
    ensures |idx| == |shape|
  {
    if |shape| == 0 then []
    else
      DivBelow(t, Product(Front(shape)), Last(shape));
      Decode(Front(shape), t / Last(shape)) + [t % Last(shape)]
  }

  lemma InBoundsFront(shape: seq<nat>, idx: seq<int>)
    requires |shape| > 0 && InBounds(shape, idx)
    ensures InBounds(Front(shape), Front(idx)) && 0 <= Last(idx) < Last(shape)
  {
  }

  lemma MulStep(e: int, p: nat, i: int, l: nat)
    requires 0 <= e < p && 0 <= i < l
    ensures 0 <= e * l + i < p * l
  {
    assert e * l <= (p - 1) * l;
  }

  /** An in-bounds index has an offset inside the array. */
  lemma {:induction false} EncodeInRange(shape: seq<nat>, idx: seq<int>)
    requires InBounds(shape, idx)
    ensures 0 <= Encode(shape, idx) < Product(shape)
  {
    if |shape| > 0 {
      InBoundsFront(shape, idx);
      EncodeInRange(Front(shape), Front(idx));
      MulStep(Encode(Front(shape), Front(idx)), Product(Front(shape)), Last(idx), Last(shape));
    }
  }

  lemma MulSign(x: int, l: int)
    requires l > 0
    ensures x >= 1 ==> x * l >= l
    ensures x <= -1 ==> x * l <= -l
  {
    if x >= 1 {
      assert x * l == (x - 1) * l + l;
    } else if x <= -1 {
      assert x * l == (x + 1) * l - l;
    }
  }

  lemma DivModUnique(e: int, i: int, l: nat)
    requires 0 <= i < l
    ensures (e * l + i) / l == e && (e * l + i) % l == i
  {
    var t := e * l + i;
    var q, r := t / l, t % l;
    assert t == q * l + r && 0 <= r < l;
    assert (e - q) * l == r - i;
    MulSign(e - q, l);
  }

  /** Decoding an offset gives an in-bounds tuple that encodes back to it. */
  lemma {:induction false} DecodeThenEncode(shape: seq<nat>, t: int)
    requires 0 <= t < Product(shape)
    ensures InBounds(shape, Decode(shape, t))
    ensures Encode(shape, Decode(shape, t)) == t
  {
    if |shape| > 0 {
      var l := Last(shape);
      DivBelow(t, Product(Front(shape)), l);
      var q, r := t / l, t % l;
      var idx := Decode(shape, t);
      DecodeThenEncode(Front(shape), q);
      assert Front(idx) == Decode(Front(shape), q);
      assert Last(idx) == r;
      EncodeStep(shape, idx, t);
      InBoundsBack(shape, idx);
    }
  }

  lemma EncodeStep(shape: seq<nat>, idx: seq<int>, t: int)
    requires |shape| > 0 && |idx| == |shape| && Last(shape) > 0
    requires Encode(Front(shape), Front(idx)) == t / Last(shape)
    requires Last(idx) == t % Last(shape)
    ensures Encode(shape, idx) == t
  {
    var l := Last(shape);
    var e := Encode(Front(shape), Front(idx));
    assert Encode(shape, idx) == e * l + Last(idx);
    DivModRecompose(t, l);
  }

  lemma DivModRecompose(t: int, l: int)
    requires l > 0
    ensures (t / l) * l + t % l == t
  {
  }

  lemma InBoundsBack(shape: seq<nat>, idx: seq<int>)
    requires |shape| > 0 && |idx| == |shape|
    requires InBounds(Front(shape), Front(idx)) && 0 <= Last(idx) < Last(shape)
    ensures InBounds(shape, idx)
  {
    forall k | 0 <= k < |shape|
      ensures 0 <= idx[k] < shape[k]
    {
      if k < |shape| - 1 {
        assert idx[k] == Front(idx)[k] && shape[k] == Front(shape)[k];
      }
    }
  }

  /** Encoding an in-bounds tuple and decoding the offset gives the tuple back. */
  lemma {:induction false} EncodeThenDecode(shape: seq<nat>, idx: seq<int>)
    requires InBounds(shape, idx)
    ensures 0 <= Encode(shape, idx) < Product(shape)
    ensures Decode(shape, Encode(shape, idx)) == idx
  {
    EncodeInRange(shape, idx);
    if |shape| > 0 {
      InBoundsFront(shape, idx);
      var e, l := Encode(Front(shape), Front(idx)), Last(shape);
      EncodeThenDecode(Front(shape), Front(idx));
      DivModUnique(e, Last(idx), l);
      assert Encode(shape, idx) == e * l + Last(idx);
      assert Decode(shape, e * l + Last(idx)) == Decode(Front(shape), e) + [Last(idx)];
      assert idx == Front(idx) + [Last(idx)];
    }
  }

  /** Two in-bounds tuples share an offset only when they are equal. */
  lemma EncodeInjective(shape: seq<nat>, a: seq<int>, b: seq<int>)
    requires InBounds(shape, a) && InBounds(shape, b)
    requires Encode(shape, a) == Encode(shape, b)
    ensures a == b
  {
    EncodeThenDecode(shape, a);
    EncodeThenDecode(shape, b);
  }

  // ----- permuted views -----

  /** `perm` lists each of the axes 0 .. |perm| - 1 exactly once. */
  predicate IsPermutation(perm: seq<nat>)
  {
    (forall i :: 0 <= i < |perm| ==> perm[i] < |perm|) &&
    (forall j :: 0 <= j < |perm| ==> j in perm) &&
    (forall i, k :: 0 <= i < k < |perm| ==> perm[i] != perm[k])
  }

  /** Position of `j` in `perm`. */
  function IndexOf(perm: seq<nat>, j: int): (i: nat)
    requires j in perm
    ensures i < |perm| && perm[i] == j
  {
    if perm[0] == j then 0 else 1 + IndexOf(perm[1..], j)
  }

  /** Shape of the view `permute(perm)` of an array of shape `shape`: view
      axis i is axis perm[i] of the underlying array. */
  function Permute(shape: seq<nat>, perm: seq<nat>): (v: seq<nat>)
    requires forall i :: 0 <= i < |perm| ==> perm[i] < |shape|
    ensures |v| == |perm|
    ensures forall i :: 0 <= i < |perm| ==> v[i] == shape[perm[i]]
  {
    seq(|perm|, i requires 0 <= i < |perm| => shape[perm[i]])
  }

  /** Index into the underlying array of the element a permuted view shows
      at view index `idx`. */
  function Scatter(idx: seq<int>, perm: seq<nat>): (u: seq<int>)
    requires IsPermutation(perm) && |idx| == |perm|
    ensures |u| == |perm|
  {
    seq(|perm|, j requires 0 <= j < |perm| => idx[IndexOf(perm, j)])
  }

  /** View axis i lands on axis perm[i] of the underlying array. */
  lemma ScatterAt(idx: seq<int>, perm: seq<nat>, i: int)
    requires IsPermutation(perm) && |idx| == |perm| && 0 <= i < |perm|
    ensures Scatter(idx, perm)[perm[i]] == idx[i]
  {
    PositionUnique(perm, IndexOf(perm, perm[i]), i);
  }

  lemma PositionUnique(perm: seq<nat>, i: int, k: int)
    requires IsPermutation(perm) && 0 <= i < |perm| && 0 <= k < |perm|
    requires perm[i] == perm[k]
    ensures i == k
  {
  }

  /** An in-bounds view index addresses an in-bounds element. */
  lemma ScatterInBounds(shape: seq<nat>, perm: seq<nat>, idx: seq<int>)
    requires IsPermutation(perm) && |shape| == |perm|
    requires InBounds(Permute(shape, perm), idx)
    ensures InBounds(shape, Scatter(idx, perm))
  {
    var u := Scatter(idx, perm);
    forall j | 0 <= j < |shape|
      ensures 0 <= u[j] < shape[j]
    {
      var i := IndexOf(perm, j);
      ScatterAt(idx, perm, i);
    }
  }

  /** Distinct view indices address distinct elements. */
  lemma ScatterInjective(perm: seq<nat>, a: seq<int>, b: seq<int>)
    requires IsPermutation(perm) && |a| == |perm| && |b| == |perm|
    requires Scatter(a, perm) == Scatter(b, perm)
    ensures a == b
  {
    forall i | 0 <= i < |perm|
      ensures a[i] == b[i]
    {
      ScatterAt(a, perm, i);
      ScatterAt(b, perm, i);
    }
  }

  /** Row-major offset, in the underlying buffer of shape `shape`, of view
      index `idx` of the view permute(perm). */
  function ViewOffset(shape: seq<nat>, perm: seq<nat>, idx: seq<int>): int
    requires IsPermutation(perm) && |shape| == |perm| && |idx| == |perm|
  {
    Encode(shape, Scatter(idx, perm))
  }

  /** A permuted view addresses each buffer cell at most once, and only
      cells inside the buffer. */
  lemma ViewOffsetFacts(shape: seq<nat>, perm: seq<nat>, a: seq<int>, b: seq<int>)
    requires IsPermutation(perm) && |shape| == |perm|
    requires InBounds(Permute(shape, perm), a) && InBounds(Permute(shape, perm), b)
    ensures 0 <= ViewOffset(shape, perm, a) < Product(shape)
    ensures ViewOffset(shape, perm, a) == ViewOffset(shape, perm, b) ==> a == b
  {
    ScatterInBounds(shape, perm, a);
    ScatterInBounds(shape, perm, b);
    EncodeInRange(shape, Scatter(a, perm));
    if ViewOffset(shape, perm, a) == ViewOffset(shape, perm, b) {
      EncodeInjective(shape, Scatter(a, perm), Scatter(b, perm));
      ScatterInjective(perm, a, b);
    }
  }
}
