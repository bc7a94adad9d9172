/** Stack values of the builder and the search for the width their offsets need. */
module FlexWidth {
  import opened Bytes
  import opened FlexTypes

  /** `u` is the 64-bit union: a number, or the position the value was written at. */
  datatype Value = Value(u: nat, ty: Type, minWidth: BitWidth) {
    function StoredWidth(parent: BitWidth): BitWidth {
      if IsInline(ty) then MaxWidth(minWidth, parent) else minWidth
    }

    function StoredPackedType(parent: BitWidth): byte {
      PackedType(StoredWidth(parent), ty)
    }
  }

  /** Sizes and indices far from the ends of 64-bit words. */
  predicate Roomy(n: nat, idx: nat) { n + 8 * idx + 8 < TWO_64 }

  function AlignUp(n: nat, bw: BitWidth): (m: nat)
    requires IsU64(n)
    ensures n <= m < n + ByteWidth(bw)
  {
    PaddingAligns(n, ByteWidth(bw), 0);
    n + PaddingBytes(n, ByteWidth(bw))
  }

  lemma AlignUpLies(n: nat, bw: BitWidth)
    requires IsU64(n)
    ensures Lies(AlignUp(n, bw), ByteWidth(bw))
  {
    PaddingAligns(n, ByteWidth(bw), 0);
  }

  /** Where element `idx` lies in a vector of width `bw` written to a buffer of size `n`. */
  function ElemLoc(n: nat, idx: nat, bw: BitWidth): (m: nat)
    requires Roomy(n, idx)
    ensures n <= m < TWO_64
  {
    AlignUp(n, bw) + Times(idx, bw)
  }

  lemma AlignUpGrows(n: nat, b: BitWidth, c: BitWidth)
    requires IsU64(n) && b <= c
    ensures AlignUp(n, b) <= AlignUp(n, c)
  {
    hide Mask, Aligned, PaddingBytes, Negate;
    var p := PaddingBytes(n, ByteWidth(c));
    PaddingAligns(n, ByteWidth(c), 0);
    AlignedDown(n + p, ByteWidth(b), ByteWidth(c));
    PaddingAligns(n, ByteWidth(b), p);
  }

  lemma ElemLocGrows(n: nat, i: nat, j: nat, b: BitWidth, c: BitWidth)
    requires Roomy(n, j) && i <= j && b <= c
    ensures ElemLoc(n, i, b) <= ElemLoc(n, j, c)
  {
    AlignUpGrows(n, b, c);
  }

  /** The relative offset to position `u` fits an element of the width. */
  predicate OffsetFits(u: nat, n: nat, idx: nat, bw: BitWidth)
    requires Roomy(n, idx) && u <= n
  {
    ElemLoc(n, idx, bw) - u < Pow256(ByteWidth(bw))
  }

  /** An offset that fits at one width fits at every larger one, and earlier in the vector. */
  lemma FitsStays(u: nat, n: nat, i: nat, j: nat, b: BitWidth, c: BitWidth)
    requires Roomy(n, j) && u <= n && i <= j && b <= c
    requires OffsetFits(u, n, j, b)
    ensures OffsetFits(u, n, i, c)
  {
    Powers();
    ElemLocGrows(n, i, j, c, c);
    if b < c {
      assert ElemLoc(n, j, c) - u <= ElemLoc(n, j, b) - u + 7 + 7 * j;
      assert j < Pow256(ByteWidth(b));
    }
  }

  ghost predicate IsOffsetWidth(u: nat, n: nat, idx: nat, r: BitWidth)
    requires Roomy(n, idx) && u <= n
  {
    OffsetFits(u, n, idx, r) && forall c: BitWidth :: c < r ==> !OffsetFits(u, n, idx, c)
  }

  lemma OffsetWidthExists(u: nat, n: nat, idx: nat)
    requires Roomy(n, idx) && u <= n
    ensures exists r: BitWidth :: IsOffsetWidth(u, n, idx, r)
  {
    Powers();
    if OffsetFits(u, n, idx, BIT_WIDTH_8) { assert IsOffsetWidth(u, n, idx, BIT_WIDTH_8); }
    else if OffsetFits(u, n, idx, BIT_WIDTH_16) { assert IsOffsetWidth(u, n, idx, BIT_WIDTH_16); }
    else if OffsetFits(u, n, idx, BIT_WIDTH_32) { assert IsOffsetWidth(u, n, idx, BIT_WIDTH_32); }
    else { assert IsOffsetWidth(u, n, idx, BIT_WIDTH_64); }
  }

  /** The least width at which the offset fits its own element. */
  ghost function OffsetWidth(u: nat, n: nat, idx: nat): BitWidth
    requires Roomy(n, idx) && u <= n
  {
    OffsetWidthExists(u, n, idx);
    var r: BitWidth :| IsOffsetWidth(u, n, idx, r);
    r
  }

  predicate Placed(v: Value, n: nat) {
    IsU64(v.u) && (!IsInline(v.ty) ==> v.u <= n)
  }

  ghost function ElemWidth(v: Value, n: nat, idx: nat): BitWidth
    requires Placed(v, n) && Roomy(n, idx)
  {
    if IsInline(v.ty) then v.minWidth else OffsetWidth(v.u, n, idx)
  }

  /** The search of the source: it returns before the loop runs out, with the least width that fits. */
  method ComputeElemWidth(v: Value, bufSize: nat, elemIndex: nat) returns (r: BitWidth)
    requires Placed(v, bufSize) && Roomy(bufSize, elemIndex)
    ensures r == ElemWidth(v, bufSize, elemIndex)
  {
    if IsInline(v.ty) {
      return v.minWidth;
    }
    ghost var least := OffsetWidth(v.u, bufSize, elemIndex);
    var bw := 0;
    while bw < 4
      invariant 0 <= bw <= least
      invariant forall c: BitWidth :: c < bw ==> !OffsetFits(v.u, bufSize, elemIndex, c)
    {
      var byteWidth := ByteWidth(bw);
      var offsetLoc := bufSize + PaddingBytes(bufSize, byteWidth) + elemIndex * byteWidth;
      var offset := offsetLoc - v.u;
      TimesIs(elemIndex, bw);
      assert offsetLoc == ElemLoc(bufSize, elemIndex, bw);
      var bitWidth := WidthU(offset);
      WidthWhenUnfit(v.u, bufSize, elemIndex, bw);
      if ByteWidth(bitWidth) == byteWidth {
        return bitWidth;
      }
      bw := bw + 1;
    }
    assert false;
  }

  /** Past widths did not fit, so the offset is at least as wide as the width being tried. */
  lemma WidthWhenUnfit(u: nat, n: nat, idx: nat, bw: BitWidth)
    requires Roomy(n, idx) && u <= n
    requires forall c: BitWidth :: c < bw ==> !OffsetFits(u, n, idx, c)
    ensures bw <= WidthU(ElemLoc(n, idx, bw) - u)
    ensures OffsetFits(u, n, idx, bw) <==> WidthU(ElemLoc(n, idx, bw) - u) == bw
  {
    Powers();
    if bw > 0 {
      var c: BitWidth := bw - 1;
      assert !OffsetFits(u, n, idx, c);
      ElemLocGrows(n, idx, idx, c, bw);
      WidthUIs(ElemLoc(n, idx, bw) - u, c);
    }
    WidthUIs(ElemLoc(n, idx, bw) - u, bw);
  }

  lemma WidthUIs(u: nat, bw: BitWidth)
    requires IsU64(u)
    ensures WidthU(u) <= bw <==> u < Pow256(ByteWidth(bw))
  {
    Powers();
  }
}
