/** The image `CreateVector` appends: padding, prefix, elements, types. */
module FlexVector {
  import opened Options
  import opened Bytes
  import opened FlexTypes
  import opened FlexWidth
  import opened FlexImage

  ghost predicate AllPlaced(vs: seq<Value>, n: nat) {
    forall i :: 0 <= i < |vs| ==> Placed(vs[i], n)
  }

  /** `WriteAny` of each value in turn, to a buffer of `size` bytes. */
  function AllBytes(vs: seq<Value>, size: nat, w: nat): (s: seq<byte>)
    requires AllPlaced(vs, size)
    ensures |s| == Cells(|vs|, w)
  {
    if vs == [] then []
    else
      var k := |vs| - 1;
      AllBytes(vs[..k], size, w) + AnyBytes(vs[k], size + Cells(k, w), w)
  }

  lemma {:induction false} AllBytesAt(vs: seq<Value>, size: nat, w: nat, k: nat)
    requires AllPlaced(vs, size) && k < |vs|
    ensures Cells(k + 1, w) <= Cells(|vs|, w)
    ensures HasBytes(AllBytes(vs, size, w), Cells(k, w), AnyBytes(vs[k], size + Cells(k, w), w))
  {
    hide AnyBytes, Cells;
    var m := |vs| - 1;
    CellsBelow(k, |vs|, w);
    if k < m {
      AllBytesAt(vs[..m], size, w, k);
    }
  }

  function TypeBytes(vs: seq<Value>, bw: BitWidth): (s: seq<byte>)
    ensures |s| == |vs|
    ensures forall i :: 0 <= i < |vs| ==> s[i] == vs[i].StoredPackedType(bw)
  {
    seq(|vs|, i requires 0 <= i < |vs| => vs[i].StoredPackedType(bw))
  }

  /** The values at `i`, `i + step`, ... */
  function Strided<T>(stack: seq<T>, i: nat, step: nat): (vs: seq<T>)
    requires step > 0
    decreases |stack| - i
    ensures |vs| <= if i < |stack| then |stack| - i else 0
    ensures forall k :: 0 <= k < |vs| ==> vs[k] in stack
  {
    if i >= |stack| then [] else [stack[i]] + Strided(stack, i + step, step)
  }

  /** A loop with that step takes the values one by one. */
  lemma StridedNext<T>(stack: seq<T>, i: nat, step: nat, vs: seq<T>, k: nat)
    requires step > 0 && i < |stack| && k <= |vs| && vs[k..] == Strided(stack, i, step)
    ensures k < |vs| && stack[i] == vs[k] && vs[k + 1..] == Strided(stack, i + step, step)
  {
    assert vs[k] == vs[k..][0];
    assert vs[k + 1..] == vs[k..][1..];
  }

  lemma StridedDone<T>(stack: seq<T>, i: nat, step: nat, vs: seq<T>, k: nat)
    requires step > 0 && i >= |stack| && k <= |vs| && vs[k..] == Strided(stack, i, step)
    ensures k == |vs| && vs[..k] == vs
  {
  }

  /** The widest `ElemWidth` of those values, each estimated at its raw index plus the prefix. */
  ghost function ElemsWidth(stack: seq<Value>, i: nat, step: nat, n: nat, prefix: nat): BitWidth
    requires step > 0 && AllPlaced(stack, n) && Roomy(n, |stack| + prefix)
    decreases |stack| - i
  {
    if i >= |stack| then BIT_WIDTH_8
    else MaxWidth(ElemWidth(stack[i], n, i + prefix), ElemsWidth(stack, i + step, step, n, prefix))
  }

  /** What fits at the estimated index and width fits at any earlier index and larger width. */
  lemma HoldsStays(v: Value, n: nat, idx: nat, bw: BitWidth, at: nat)
    requires Placed(v, n) && Roomy(n, idx) && at <= idx
    requires ElemWidth(v, n, idx) <= bw
    ensures Holds(v, ElemLoc(n, at, bw), bw)
  {
    if !IsInline(v.ty) {
      FitsStays(v.u, n, at, idx, OffsetWidth(v.u, n, idx), bw);
    }
  }

  /** Every value holds at its true element index, at any width the estimate allows. */
  lemma {:induction false} EstimateSuffices(stack: seq<Value>, i: nat, step: nat, n: nat, prefix: nat, bw: BitWidth,
                                            k: nat, at: nat)
    requires step > 0 && AllPlaced(stack, n) && Roomy(n, |stack| + prefix)
    requires ElemsWidth(stack, i, step, n, prefix) <= bw
    requires k < |Strided(stack, i, step)| && at <= k + i + prefix
    ensures Roomy(n, at)
    ensures var v := Strided(stack, i, step)[k];
            Placed(v, n) && Holds(v, ElemLoc(n, at, bw), bw)
    decreases |stack| - i
  {
    if k == 0 {
      HoldsStays(stack[i], n, i + prefix, bw, at);
    } else {
      EstimateSuffices(stack, i + step, step, n, prefix, bw, k - 1, at);
      assert Strided(stack, i, step)[k] == Strided(stack, i + step, step)[k - 1];
    }
  }

  // ---------------------------------------------------------------- the image

  /** Number of width-sized cells before the elements: keys offset, keys width, size. */
  function PrefixCells(fixed: bool, keys: Option<Value>): nat {
    (if keys.Some? then 2 else 0) + (if fixed then 0 else 1)
  }

  predicate KeysPlaced(keys: Option<Value>, n: nat) {
    keys.Some? ==> Placed(keys.value, n) && keys.value.u <= n
  }

  function KeysBytes(start: nat, w: nat, keys: Option<Value>): (s: seq<byte>)
    requires KeysPlaced(keys, start)
    ensures |s| == if keys.None? then 0 else w + w
  {
    if keys.None? then [] else ToLE(start - keys.value.u, w) + ToLE(ByteWidth(keys.value.minWidth), w)
  }

  function SizeBytes(len: nat, w: nat, fixed: bool): (s: seq<byte>)
    ensures |s| == if fixed then 0 else w
  {
    if fixed then [] else ToLE(len, w)
  }

  /** Position of the first element of a vector whose prefix begins at `start`. */
  function ElemsAt(start: nat, w: nat, fixed: bool, keys: Option<Value>): (p: nat)
    ensures start <= p
  {
    start + Cells(PrefixCells(fixed, keys), w)
  }

  /** What is appended after the padding, when that ends at `start`. */
  function VectorImage(start: nat, vs: seq<Value>, bw: BitWidth, typed: bool, fixed: bool, keys: Option<Value>)
    : (s: seq<byte>)
    requires AllPlaced(vs, start) && KeysPlaced(keys, start)
  {
    var w := ByteWidth(bw);
    KeysBytes(start, w, keys)
    + SizeBytes(|vs|, w, fixed)
    + AllBytes(vs, ElemsAt(start, w, fixed, keys), w)
    + if typed then [] else TypeBytes(vs, bw)
  }

  /** One of the values that are taken. */
  predicate Taken(i: nat, j: nat, step: nat)
    requires step == 1 || step == 2
  {
    i <= j && (step == 1 || (j - i) % 2 == 0)
  }

  lemma {:induction false} ElemsWidthIsLeast(stack: seq<Value>, i: nat, step: nat, n: nat, prefix: nat, w: BitWidth)
    requires (step == 1 || step == 2) && AllPlaced(stack, n) && Roomy(n, |stack| + prefix)
    ensures ElemsWidth(stack, i, step, n, prefix) <= w <==>
            forall j: nat :: j < |stack| && Taken(i, j, step) ==> ElemWidth(stack[j], n, j + prefix) <= w
    decreases |stack| - i
  {
    hide ElemWidth;
    if i < |stack| {
      ElemsWidthIsLeast(stack, i + step, step, n, prefix, w);
      assert Taken(i, i, step);
      forall j: nat | j < |stack| && j != i
        ensures Taken(i, j, step) <==> Taken(i + step, j, step)
      {
      }
    }
  }

  /** No narrower one would do for the estimates, the size, the keys and the width forced. */
  lemma VectorWidthIsLeast(n: nat, stack: seq<Value>, i: nat, step: nat, force: BitWidth, keys: Option<Value>,
                           w: BitWidth)
    requires (step == 1 || step == 2) && AllPlaced(stack, n) && Roomy(n, |stack| + 3) && KeysPlaced(keys, n)
    ensures VectorWidth(n, stack, i, step, force, keys) <= w <==>
            && force <= w && WidthU(|Strided(stack, i, step)|) <= w
            && (keys.Some? ==> ElemWidth(keys.value, n, 0) <= w)
            && forall j: nat :: j < |stack| && Taken(i, j, step) ==>
                 ElemWidth(stack[j], n, j + if keys.Some? then 3 else 1) <= w
  {
    hide ElemWidth, WidthU, ElemsWidth, Strided, Taken;
    ElemsWidthIsLeast(stack, i, step, n, if keys.Some? then 3 else 1, w);
  }

  /** The width `CreateVector` settles on. */
  ghost function VectorWidth(n: nat, stack: seq<Value>, i: nat, step: nat, force: BitWidth, keys: Option<Value>)
    : BitWidth
    requires step > 0 && AllPlaced(stack, n) && Roomy(n, |stack| + 3) && KeysPlaced(keys, n)
  {
    var base := MaxWidth(force, WidthU(|Strided(stack, i, step)|));
    var withKeys := if keys.Some? then MaxWidth(base, ElemWidth(keys.value, n, 0)) else base;
    MaxWidth(withKeys, ElemsWidth(stack, i, step, n, if keys.Some? then 3 else 1))
  }
}
