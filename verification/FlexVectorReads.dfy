/** A vector image reads back as the vector of what its elements denote. */
module FlexVectorReads {
  import opened Options
  import opened Bytes
  import opened FlexTypes
  import opened FlexReader
  import opened FlexTree
  import opened FlexWidth
  import opened FlexImage
  import opened FlexVector

  /** Cell `k` of the elements at `p` holds value `k`. */
  ghost predicate CellHas(b: seq<byte>, p: nat, vs: seq<Value>, w: nat, k: nat)
    requires AllPlaced(vs, p) && k < |vs|
  {
    var e := p + Cells(k, w);
    HasBytes(b, e, AnyBytes(vs[k], e, w))
  }

  ghost predicate CellsHave(b: seq<byte>, p: nat, vs: seq<Value>, w: nat)
    requires AllPlaced(vs, p)
  {
    forall k :: 0 <= k < |vs| ==> CellHas(b, p, vs, w, k)
  }

  ghost predicate SizeBefore(b: seq<byte>, p: nat, len: nat, w: nat) {
    HasBytes(b, p - w, ToLE(len, w))
  }

  ghost predicate TypesAfter(b: seq<byte>, p: nat, vs: seq<Value>, bw: BitWidth) {
    && p + |vs| <= |b|
    && forall k :: 0 <= k < |vs| ==> b[p + k] == vs[k].StoredPackedType(bw)
  }

  /** Size, elements and types of a vector, as bytes around the position of its first element. */
  ghost predicate Laid(b: seq<byte>, p: nat, vs: seq<Value>, bw: BitWidth, typed: bool, fixed: bool)
    requires AllPlaced(vs, p)
  {
    var w := ByteWidth(bw);
    && CellsHave(b, p, vs, w)
    && (!fixed ==> SizeBefore(b, p, |vs|, w))
    && (!typed ==> TypesAfter(b, p + Cells(|vs|, w), vs, bw))
  }

  lemma CellsLaid(head: seq<byte>, tail: seq<byte>, vs: seq<Value>, w: nat)
    requires AllPlaced(vs, |head|)
    ensures CellsHave(head + AllBytes(vs, |head|, w) + tail, |head|, vs, w)
  {
    hide AllBytes, AnyBytes, Cells, HasBytes;
    var all := AllBytes(vs, |head|, w);
    forall k | 0 <= k < |vs|
      ensures CellHas(head + all + tail, |head|, vs, w, k)
    {
      AllBytesAt(vs, |head|, w, k);
      HasBytesWithin(head, all, tail, Cells(k, w), AnyBytes(vs[k], |head| + Cells(k, w), w));
    }
  }

  lemma SizeLaid(head: seq<byte>, rest: seq<byte>, len: nat, w: nat)
    ensures SizeBefore(head + ToLE(len, w) + rest, |head| + w, len, w)
  {
    hide ToLE;
  }

  lemma Regroup<T>(a: seq<T>, b: seq<T>, c: seq<T>, d: seq<T>, e: seq<T>)
    ensures a + (b + c + d + e) == (a + b + c) + d + e == (a + b) + c + (d + e)
  {
  }

  /** The image of `CreateVector`, appended to a padded buffer, is laid out around `ElemsAt`. */
  lemma ImageLaid(b: seq<byte>, vs: seq<Value>, bw: BitWidth, typed: bool, fixed: bool, keys: Option<Value>)
    requires AllPlaced(vs, |b|) && KeysPlaced(keys, |b|)
    ensures Laid(b + VectorImage(|b|, vs, bw, typed, fixed, keys), ElemsAt(|b|, ByteWidth(bw), fixed, keys), vs, bw,
      typed, fixed)
  {
    hide AllBytes, Cells, CellsHave, SizeBefore, TypesAfter, KeysBytes, TypeBytes, ElemsAt, ToLE;
    var w := ByteWidth(bw);
    var p := ElemsAt(|b|, w, fixed, keys);
    var front := b + KeysBytes(|b|, w, keys);
    var size := SizeBytes(|vs|, w, fixed);
    var all := AllBytes(vs, p, w);
    var types := if typed then [] else TypeBytes(vs, bw);
    PrefixSize(|b|, w, |vs|, fixed, keys);
    Regroup(b, KeysBytes(|b|, w, keys), size, all, types);
    CellsLaid(front + size, types, vs, w);
    if !fixed {
      SizeLaid(front, all + types, |vs|, w);
    }
    if !typed {
      TypesLaid(front + size + all, vs, bw);
    }
  }

  lemma TypesLaid(head: seq<byte>, vs: seq<Value>, bw: BitWidth)
    ensures TypesAfter(head + TypeBytes(vs, bw), |head|, vs, bw)
  {
  }

  lemma PrefixSize(start: nat, w: nat, len: nat, fixed: bool, keys: Option<Value>)
    requires KeysPlaced(keys, start)
    ensures ElemsAt(start, w, fixed, keys) == start + |KeysBytes(start, w, keys)| + |SizeBytes(len, w, fixed)|
  {
    assert Cells(1, w) == w;
    assert Cells(2, w) == Cells(1, w) + w;
    assert Cells(3, w) == Cells(2, w) + w;
  }

  /** The keys of a map are found in front of its size. */
  lemma KeysPart(b: seq<byte>, keys: Value, w: nat, rest: seq<byte>)
    requires w in {1, 2, 4, 8}
    requires Placed(keys, |b|) && keys.u <= |b| && |b| - keys.u < Pow256(w)
    ensures KeysOf(b + KeysBytes(|b|, w, Some(keys)) + rest, |b| + 3 * w, w)
            == Some(FlexReader.TypedVector(keys.u, ByteWidth(keys.minWidth), FBT_KEY))
  {
    hide ToLE, Pow256, HasBytes, KeysOf, ReadUInt64;
    var p := |b|;
    var offset, width := ToLE(p - keys.u, w), ToLE(ByteWidth(keys.minWidth), w);
    var b' := b + (offset + width) + rest;
    HasBytesTwo(b, offset, width, rest);
    KeyWidthFits(keys.minWidth, w);
    WrittenUInt(b', p, w, p - keys.u);
    WrittenUInt(b', p + w, w, ByteWidth(keys.minWidth));
    KeysFrom(b', p, w, p - keys.u, ByteWidth(keys.minWidth));
  }

  lemma KeysFrom(b: seq<byte>, p: nat, w: nat, off: nat, kw: nat)
    requires ReadUInt64(b, p, w) == Some(off) && ReadUInt64(b, p + w, w) == Some(kw) && kw < 256
    ensures KeysOf(b, p + 3 * w, w) == Some(FlexReader.TypedVector(p - off, kw, FBT_KEY))
  {
    assert p + 3 * w - w * 3 == p;
  }

  lemma KeyWidthFits(bw: BitWidth, w: nat)
    requires w in {1, 2, 4, 8}
    ensures ByteWidth(bw) < Pow256(w)
  {
    Powers();
  }

  // ---------------------------------------------------------------- reading the whole

  ghost predicate AllDenote(b: seq<byte>, vs: seq<Value>, ts: seq<Tree>) {
    |vs| == |ts| && forall k :: 0 <= k < |vs| ==> Denotes(b, vs[k], ts[k])
  }

  /** Every value holds in its cell. */
  ghost predicate AllHold(vs: seq<Value>, p: nat, bw: BitWidth)
    requires AllPlaced(vs, p)
  {
    forall k :: 0 <= k < |vs| ==> Holds(vs[k], p + Cells(k, ByteWidth(bw)), bw)
  }

  /** A buffer that extends `b` by a vector at `p`, each of whose values holds in its cell. */
  ghost predicate Extends(b: seq<byte>, b': seq<byte>, p: nat, vs: seq<Value>, ts: seq<Tree>, bw: BitWidth,
                          typed: bool, fixed: bool) {
    && b <= b' && p <= |b'| < TWO_64
    && AllPlaced(vs, p) && AllDenote(b, vs, ts) && AllHold(vs, p, bw)
    && Laid(b', p, vs, bw, typed, fixed)
    && (!fixed ==> |vs| < Pow256(ByteWidth(bw)))
  }

  lemma SizeFrom(b: seq<byte>, p: nat, len: nat, w: nat)
    requires w in {1, 2, 4, 8} && SizeBefore(b, p, len, w) && len < Pow256(w)
    ensures SizeAt(b, p, w) == Some(len)
  {
    hide ToLE, Pow256;
    WrittenUInt(b, p - w, w, len);
  }

  lemma VectorAtFrom(b: seq<byte>, p: nat, len: nat, w: nat, k: nat, packed: byte)
    requires SizeAt(b, p, w) == Some(len) && k < len
    requires p + Cells(len, w) + k < |b| && b[p + Cells(len, w) + k] == packed
    ensures VectorAt(b, p, w, k) == Some(Unpack(p + Cells(k, w), w, packed))
  {
    CellsIs(k, w);
    CellsIs(len, w);
    var at := p + Cells(len, w) + k;
    assert b[at..at + 1] == [packed];
  }

  lemma SizeReads(b: seq<byte>, b': seq<byte>, p: nat, vs: seq<Value>, ts: seq<Tree>, bw: BitWidth, typed: bool)
    requires Extends(b, b', p, vs, ts, bw, typed, false)
    ensures SizeAt(b', p, ByteWidth(bw)) == Some(|vs|)
  {
    SizeFrom(b', p, |vs|, ByteWidth(bw));
  }

  lemma CellReads(b: seq<byte>, b': seq<byte>, p: nat, vs: seq<Value>, ts: seq<Tree>, bw: BitWidth, typed: bool,
                  fixed: bool, k: nat)
    requires Extends(b, b', p, vs, ts, bw, typed, fixed) && k < |vs|
    ensures Reads(b', Unpack(p + Cells(k, ByteWidth(bw)), ByteWidth(bw), vs[k].StoredPackedType(bw)), ts[k])
    ensures IsTypedElement(ts[k]) ==>
      Reads(b', Reference(p + Cells(k, ByteWidth(bw)), ByteWidth(bw), 1, vs[k].ty), ts[k])
  {
    hide Denotes, Reads, Unpack, Cells, Holds, SizeBefore, TypesAfter, AnyBytes;
    assert CellHas(b', p, vs, ByteWidth(bw), k);
    ElementReads(b, vs[k], ts[k], b', p + Cells(k, ByteWidth(bw)), bw);
  }

  lemma VectorCell(b: seq<byte>, p: nat, vs: seq<Value>, bw: BitWidth, k: nat)
    requires SizeAt(b, p, ByteWidth(bw)) == Some(|vs|) && k < |vs|
    requires TypesAfter(b, p + Cells(|vs|, ByteWidth(bw)), vs, bw)
    ensures VectorAt(b, p, ByteWidth(bw), k)
            == Some(Unpack(p + Cells(k, ByteWidth(bw)), ByteWidth(bw), vs[k].StoredPackedType(bw)))
  {
    VectorAtFrom(b, p, |vs|, ByteWidth(bw), k, vs[k].StoredPackedType(bw));
  }

  lemma ExtendsCount(b: seq<byte>, b': seq<byte>, p: nat, vs: seq<Value>, ts: seq<Tree>, bw: BitWidth, typed: bool,
                     fixed: bool)
    requires Extends(b, b', p, vs, ts, bw, typed, fixed)
    ensures |vs| == |ts|
  {
  }

  lemma VectorElementReads(b: seq<byte>, b': seq<byte>, p: nat, vs: seq<Value>, ts: seq<Tree>, bw: BitWidth, k: nat)
    requires Extends(b, b', p, vs, ts, bw, false, false) && k < |ts|
    ensures VectorAt(b', p, ByteWidth(bw), k).Some?
    ensures Reads(b', VectorAt(b', p, ByteWidth(bw), k).value, ts[k])
  {
    hide Extends, Reads, Unpack, VectorAt, Cells;
    ExtendsCount(b, b', p, vs, ts, bw, false, false);
    CellReads(b, b', p, vs, ts, bw, false, false, k);
    VectorCellReads(b, b', p, vs, ts, bw, k);
  }

  lemma VectorCellReads(b: seq<byte>, b': seq<byte>, p: nat, vs: seq<Value>, ts: seq<Tree>, bw: BitWidth, k: nat)
    requires Extends(b, b', p, vs, ts, bw, false, false) && k < |ts|
    ensures VectorAt(b', p, ByteWidth(bw), k)
            == Some(Unpack(p + Cells(k, ByteWidth(bw)), ByteWidth(bw), vs[k].StoredPackedType(bw)))
  {
    SizeReads(b, b', p, vs, ts, bw, false);
    VectorCell(b', p, vs, bw, k);
  }

  /** Through its packed type a number has the width of the vector, and anything else the width of its own. */
  lemma ElementByteWidth(b: seq<byte>, b': seq<byte>, p: nat, vs: seq<Value>, ts: seq<Tree>, bw: BitWidth, k: nat)
    requires Extends(b, b', p, vs, ts, bw, false, false) && k < |ts|
    ensures |vs| == |ts| && VectorAt(b', p, ByteWidth(bw), k).Some?
    ensures var r := VectorAt(b', p, ByteWidth(bw), k).value;
            && r.ty == vs[k].ty && r.parentWidth == ByteWidth(bw)
            && r.byteWidth == ByteWidth(if IsInline(vs[k].ty) then bw else vs[k].minWidth)
  {
    hide Laid, VectorAt, Cells, HasBytes, Unpack;
    VectorCellReads(b, b', p, vs, ts, bw, k);
    if !IsScalarTree(ts[k]) {
      DenotesOffset(b, vs[k], ts[k]);
    }
    PackedUnpacks(vs[k], p + Cells(k, ByteWidth(bw)), ByteWidth(bw), bw);
  }

  lemma VectorReads(b: seq<byte>, b': seq<byte>, p: nat, vs: seq<Value>, ts: seq<Tree>, bw: BitWidth)
    requires Extends(b, b', p, vs, ts, bw, false, false)
    ensures Denotes(b', Value(p, FBT_VECTOR, bw), Vector(ts))
  {
    SizeReads(b, b', p, vs, ts, bw, false);
    forall k | 0 <= k < |ts|
      ensures VectorAt(b', p, ByteWidth(bw), k).Some?
      ensures Reads(b', VectorAt(b', p, ByteWidth(bw), k).value, ts[k])
    {
      VectorElementReads(b, b', p, vs, ts, bw, k);
    }
  }

  /** Elements of one of the types that need no width of their own. */
  ghost predicate AllOfType(vs: seq<Value>, ts: seq<Tree>, ety: Type) {
    && |vs| == |ts|
    && ety in {FBT_INT, FBT_UINT, FBT_KEY, FBT_BOOL}
    && forall k :: 0 <= k < |vs| ==> vs[k].ty == ety && IsTypedElement(ts[k])
  }

  lemma TypedElementReads(b: seq<byte>, b': seq<byte>, p: nat, vs: seq<Value>, ts: seq<Tree>, bw: BitWidth, ety: Type,
                          fixed: bool, k: nat)
    requires Extends(b, b', p, vs, ts, bw, true, fixed) && AllOfType(vs, ts, ety) && k < |ts|
    ensures Reads(b', Reference(p + k * ByteWidth(bw), ByteWidth(bw), 1, ety), ts[k])
  {
    CellsIs(k, ByteWidth(bw));
    CellReads(b, b', p, vs, ts, bw, true, fixed, k);
  }

  lemma TypedCell(b: seq<byte>, p: nat, len: nat, w: nat, ety: Type, k: nat)
    requires SizeAt(b, p, w) == Some(len) && k < len
    ensures TypedVectorAt(b, FlexReader.TypedVector(p, w, ety), k) == Some(Reference(p + k * w, w, 1, ety))
  {
  }

  lemma TypedReads(b: seq<byte>, b': seq<byte>, p: nat, vs: seq<Value>, ts: seq<Tree>, bw: BitWidth, ety: Type)
    requires Extends(b, b', p, vs, ts, bw, true, false) && AllOfType(vs, ts, ety)
    ensures Denotes(b', Value(p, ToTypedVector(ety, 0), bw), Tree.TypedVector(ety, ts))
  {
    var v := FlexReader.TypedVector(p, ByteWidth(bw), ety);
    SizeReads(b, b', p, vs, ts, bw, true);
    forall k | 0 <= k < |ts|
      ensures TypedVectorAt(b', v, k).Some? && Reads(b', TypedVectorAt(b', v, k).value, ts[k])
    {
      TypedCell(b', p, |ts|, ByteWidth(bw), ety, k);
      TypedElementReads(b, b', p, vs, ts, bw, ety, false, k);
    }
    assert ReadsAt(b', p, ByteWidth(bw), ToTypedVector(ety, 0), Tree.TypedVector(ety, ts));
  }

  lemma FixedReads(b: seq<byte>, b': seq<byte>, p: nat, vs: seq<Value>, ts: seq<Tree>, bw: BitWidth, ety: Type)
    requires Extends(b, b', p, vs, ts, bw, true, true) && AllOfType(vs, ts, ety)
    requires 2 <= |vs| <= 4 && ety <= FBT_UINT
    ensures Denotes(b', Value(p, ToTypedVector(ety, |vs|), bw), FixedVector(ety, ts))
  {
    var v := FlexReader.TypedVector(p, ByteWidth(bw), ety);
    TypedVectorTypesInvert(ety, |vs|);
    forall k | 0 <= k < |ts|
      ensures Reads(b', FixedTypedVectorAt(v, |ts|, k), ts[k])
    {
      TypedElementReads(b, b', p, vs, ts, bw, ety, true, k);
    }
    assert ReadsAt(b', p, ByteWidth(bw), ToTypedVector(ety, |vs|), FixedVector(ety, ts));
  }

  // ---------------------------------------------------------------- from the width estimate to the bytes

  lemma CellsAdd(a: nat, k: nat, w: nat)
    ensures Cells(a + k, w) == Cells(a, w) + Cells(k, w)
  {
    CellsIs(a, w);
    CellsIs(k, w);
    CellsIs(a + k, w);
    assert (a + k) * w == a * w + k * w;
  }

  /** The buffer `CreateVector` leaves behind. */
  function Built(b: seq<byte>, vs: seq<Value>, bw: BitWidth, typed: bool, fixed: bool, keys: Option<Value>)
    : (b': seq<byte>)
    requires IsU64(|b|) && AllPlaced(vs, |b|) && KeysPlaced(keys, |b|)
    ensures b <= b'
  {
    var start := AlignUp(|b|, bw);
    b + Zeros(start - |b|) + VectorImage(start, vs, bw, typed, fixed, keys)
  }

  lemma CellHolds(n: nat, stack: seq<Value>, i: nat, step: nat, bw: BitWidth, prefix: nat, cells: nat, k: nat)
    requires step > 0 && AllPlaced(stack, n) && Roomy(n, |stack| + prefix)
    requires ElemsWidth(stack, i, step, n, prefix) <= bw && cells <= prefix
    requires k < |Strided(stack, i, step)|
    ensures var v := Strided(stack, i, step)[k];
            var p := AlignUp(n, bw) + Cells(cells, ByteWidth(bw)) + Cells(k, ByteWidth(bw));
            Placed(v, n) && Holds(v, p, bw)
  {
    hide Holds, Placed, Cells, Times, ElemsWidth, Strided, AlignUp;
    EstimateSuffices(stack, i, step, n, prefix, bw, k, cells + k);
    TimesIs(cells + k, bw);
    CellsAdd(cells, k, ByteWidth(bw));
  }

  /** The width that `CreateVector` chooses before aligning suffices for what it writes after. */
  lemma WidthSuffices(n: nat, stack: seq<Value>, i: nat, step: nat, force: BitWidth, fixed: bool, keys: Option<Value>)
    requires step > 0 && AllPlaced(stack, n) && Roomy(n, |stack| + 3) && KeysPlaced(keys, n)
    requires keys.Some? ==> !fixed
    ensures var vs := Strided(stack, i, step);
            var bw := VectorWidth(n, stack, i, step, force, keys);
            var p := ElemsAt(AlignUp(n, bw), ByteWidth(bw), fixed, keys);
            && AllPlaced(vs, p) && AllHold(vs, p, bw)
            && |vs| < Pow256(ByteWidth(bw))
            && (keys.Some? ==> Holds(keys.value, AlignUp(n, bw), bw))
  {
    var vs := Strided(stack, i, step);
    var bw := VectorWidth(n, stack, i, step, force, keys);
    var start := AlignUp(n, bw);
    var p := ElemsAt(start, ByteWidth(bw), fixed, keys);
    forall k | 0 <= k < |vs|
      ensures Placed(vs[k], p) && Holds(vs[k], p + Cells(k, ByteWidth(bw)), bw)
    {
      CellHolds(n, stack, i, step, bw, if keys.Some? then 3 else 1, PrefixCells(fixed, keys), k);
    }
    WidthUStays(|vs|, bw);
    if keys.Some? {
      HoldsStays(keys.value, n, 0, bw, 0);
    }
  }

  /** What was built from values that hold in their cells extends the buffer by a readable vector. */
  lemma BuiltExtends(b: seq<byte>, vs: seq<Value>, ts: seq<Tree>, bw: BitWidth, typed: bool, fixed: bool,
                     keys: Option<Value>, p: nat)
    requires IsU64(|b|) && AllPlaced(vs, |b|) && KeysPlaced(keys, |b|) && AllDenote(b, vs, ts)
    requires p == ElemsAt(AlignUp(|b|, bw), ByteWidth(bw), fixed, keys) && AllHold(vs, p, bw)
    requires |vs| < Pow256(ByteWidth(bw))
    requires |Built(b, vs, bw, typed, fixed, keys)| < TWO_64
    ensures Extends(b, Built(b, vs, bw, typed, fixed, keys), p, vs, ts, bw, typed, fixed)
  {
    hide AllBytes, Cells, VectorImage, Denotes, Laid, AllHold, AlignUp, Zeros, ElemsAt;
    var padded := b + Zeros(AlignUp(|b|, bw) - |b|);
    StartsPadded(b, bw, vs, keys);
    ImageLaid(padded, vs, bw, typed, fixed, keys);
    LaidInside(padded, vs, bw, typed, fixed, keys);
  }

  lemma StartsPadded(b: seq<byte>, bw: BitWidth, vs: seq<Value>, keys: Option<Value>)
    requires IsU64(|b|) && AllPlaced(vs, |b|) && KeysPlaced(keys, |b|)
    ensures |b| <= AlignUp(|b|, bw) == |b + Zeros(AlignUp(|b|, bw) - |b|)|
    ensures AllPlaced(vs, AlignUp(|b|, bw)) && KeysPlaced(keys, AlignUp(|b|, bw))
  {
  }

  lemma LaidInside(b: seq<byte>, vs: seq<Value>, bw: BitWidth, typed: bool, fixed: bool, keys: Option<Value>)
    requires AllPlaced(vs, |b|) && KeysPlaced(keys, |b|)
    ensures ElemsAt(|b|, ByteWidth(bw), fixed, keys) <= |b + VectorImage(|b|, vs, bw, typed, fixed, keys)|
  {
    PrefixSize(|b|, ByteWidth(bw), |vs|, fixed, keys);
  }
}
