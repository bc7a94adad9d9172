/** The bytes the builder appends, and why they read back. */
module FlexImage {
  import opened Options
  import opened Bytes
  import opened FlexTypes
  import opened FlexReader
  import opened FlexTree
  import opened FlexWidth

  /** The tree a stack value stands for: written wherever it may be, it will read as `t`. */
  ghost predicate Denotes(b: seq<byte>, v: Value, t: Tree) {
    match t
    case Null => v == Value(0, FBT_NULL, BIT_WIDTH_8)
    case Bool(x) => v == Value(if x then 1 else 0, FBT_BOOL, BIT_WIDTH_8)
    case Int(i) => IsI64(i) && v == Value(ToU64(i), FBT_INT, WidthI(i))
    case UInt(u) => IsU64(u) && v == Value(u, FBT_UINT, WidthU(u))
    case _ =>
      && !IsInline(v.ty) && v.ty <= FBT_VECTOR_BOOL
      && IsU64(v.u) && v.u <= |b|
      && ReadsAt(b, v.u, ByteWidth(v.minWidth), v.ty, t)
  }

  lemma DenotesGrows(b: seq<byte>, b': seq<byte>, v: Value, t: Tree)
    requires b <= b' && Denotes(b, v, t)
    ensures Denotes(b', v, t)
  {
    if !t.Null? && !t.Bool? && !t.Int? && !t.UInt? {
      ReadsAtGrows(b, b', v.u, ByteWidth(v.minWidth), v.ty, t);
    }
  }

  lemma DenotesPlaced(b: seq<byte>, v: Value, t: Tree)
    requires Denotes(b, v, t)
    ensures Placed(v, |b|)
  {
  }

  // ---------------------------------------------------------------- one element

  /** `WriteAny` to a buffer of `size` bytes: a number as it is, anything else as an offset back. */
  function AnyBytes(v: Value, size: nat, w: nat): (s: seq<byte>)
    requires Placed(v, size)
    ensures |s| == w
  {
    if IsInline(v.ty) then ToLE(v.u, w) else ToLE(size - v.u, w)
  }

  /** The element holds the value without loss when written at `p` with width `bw`. */
  predicate Holds(v: Value, p: nat, bw: BitWidth)
    requires Placed(v, p)
  {
    if IsInline(v.ty) then v.minWidth <= bw else p - v.u < Pow256(ByteWidth(bw))
  }

  lemma WrittenUInt(b: seq<byte>, p: nat, w: nat, u: nat)
    requires w in {1, 2, 4, 8} && u < Pow256(w)
    requires HasBytes(b, p, ToLE(u, w))
    ensures ReadUInt64(b, p, w) == Some(u)
  {
    hide ToLE, FromLE;
    HasBytesSlice(b, p, ToLE(u, w));
    FromToLE(u, w);
  }

  /** A number truncated to a width that `WidthI` allows is sign-extended back to itself. */
  lemma WrittenInt(b: seq<byte>, p: nat, bw: BitWidth, i: int)
    requires IsI64(i) && WidthI(i) <= bw
    requires HasBytes(b, p, ToLE(ToU64(i), ByteWidth(bw)))
    ensures ReadInt64(b, p, ByteWidth(bw)) == Some(i)
  {
    var w := ByteWidth(bw);
    Powers();
    WidthIIsLeast(i, bw);
    if i >= 0 {
      WrittenUInt(b, p, w, i);
    } else {
      var low := i + Pow256(w);
      if bw < BIT_WIDTH_64 {
        var k := if w == 1 then 0xFF_FFFF_FFFF_FFFF else if w == 2 then 0xFFFF_FFFF_FFFF else 0xFFFF_FFFF;
        Shifts(k);
        ToLEDropsHigh(low, k, w);
      }
      WrittenUInt(b, p, w, low);
    }
  }

  lemma PackedUnpacks(v: Value, p: int, w: nat, bw: BitWidth)
    requires v.ty <= FBT_VECTOR_BOOL
    ensures Unpack(p, w, v.StoredPackedType(bw)) == Reference(p, w, ByteWidth(v.StoredWidth(bw)), v.ty)
  {
    var x := v.StoredWidth(bw);
    assert (x + 4 * v.ty) % 256 == x + 4 * v.ty;
  }

  lemma WidthUStays(u: nat, bw: BitWidth)
    requires IsU64(u) && WidthU(u) <= bw
    ensures u < Pow256(ByteWidth(bw))
  {
    Powers();
  }

  predicate IsScalarTree(t: Tree) { t.Null? || t.Bool? || t.Int? || t.UInt? }

  predicate IsTypedElement(t: Tree) { t.Bool? || t.Int? || t.UInt? || t.Key? }

  lemma ScalarReads(b: seq<byte>, v: Value, t: Tree, b': seq<byte>, p: nat, bw: BitWidth, x: nat)
    requires IsScalarTree(t) && Denotes(b, v, t) && v.minWidth <= bw
    requires HasBytes(b', p, ToLE(v.u, ByteWidth(bw)))
    ensures Reads(b', Reference(p, ByteWidth(bw), x, v.ty), t)
  {
    var w := ByteWidth(bw);
    match t
    case Null =>
    case Bool(_) => Powers(); WrittenUInt(b', p, w, v.u);
    case Int(i) => WrittenInt(b', p, bw, i);
    case UInt(u) => WidthUStays(u, bw); WrittenUInt(b', p, w, u);
  }

  lemma DenotesOffset(b: seq<byte>, v: Value, t: Tree)
    requires !IsScalarTree(t) && Denotes(b, v, t)
    ensures !IsInline(v.ty) && v.ty <= FBT_VECTOR_BOOL
    ensures ReadsAt(b, v.u, ByteWidth(v.minWidth), v.ty, t)
  {
  }

  lemma KeyIgnoresWidth(b: seq<byte>, pos: int, w: nat, x: nat, ty: Type, t: Tree)
    requires ReadsAt(b, pos, w, ty, t) && (x == w || t.Key?)
    ensures ReadsAt(b, pos, x, ty, t)
  {
  }

  lemma TargetReads(b: seq<byte>, r: Reference, q: int, t: Tree)
    requires !IsScalarTree(t) && !IsInline(r.ty)
    requires Target(b, r) == Some(q) && ReadsAt(b, q, r.byteWidth, r.ty, t)
    ensures Reads(b, r, t)
  {
  }

  lemma OffsetTarget(b: seq<byte>, p: nat, q: nat, w: nat, x: nat, ty: Type)
    requires w in {1, 2, 4, 8} && q <= p && p - q < Pow256(w)
    requires HasBytes(b, p, ToLE(p - q, w))
    ensures Target(b, Reference(p, w, x, ty)) == Some(q)
  {
    WrittenUInt(b, p, w, p - q);
  }

  lemma OffsetReads(b: seq<byte>, p: nat, q: nat, w: nat, x: nat, ty: Type, t: Tree)
    requires w in {1, 2, 4, 8} && q <= p && p - q < Pow256(w)
    requires HasBytes(b, p, ToLE(p - q, w))
    requires !IsScalarTree(t) && !IsInline(ty) && ReadsAt(b, q, x, ty, t)
    ensures Reads(b, Reference(p, w, x, ty), t)
    ensures t.Key? ==> Reads(b, Reference(p, w, 1, ty), t)
  {
    OffsetTarget(b, p, q, w, x, ty);
    TargetReads(b, Reference(p, w, x, ty), q, t);
    if t.Key? {
      KeyIgnoresWidth(b, q, x, 1, ty, t);
      OffsetTarget(b, p, q, w, 1, ty);
      TargetReads(b, Reference(p, w, 1, ty), q, t);
    }
  }

  /** An element written by `WriteAny` reads back, through its packed type, as what it denotes. */
  lemma ElementReads(b: seq<byte>, v: Value, t: Tree, b': seq<byte>, p: nat, bw: BitWidth)
    requires Denotes(b, v, t) && b <= b' && Placed(v, p) && Holds(v, p, bw)
    requires HasBytes(b', p, AnyBytes(v, p, ByteWidth(bw)))
    ensures Reads(b', Unpack(p, ByteWidth(bw), v.StoredPackedType(bw)), t)
    ensures IsTypedElement(t) ==> Reads(b', Reference(p, ByteWidth(bw), 1, v.ty), t)
  {
    hide ReadsAt, Reads, Unpack, ToLE, HasBytes, Pow256;
    PackedUnpacks(v, p, ByteWidth(bw), bw);
    if IsScalarTree(t) {
      ScalarReads(b, v, t, b', p, bw, ByteWidth(v.StoredWidth(bw)));
      ScalarReads(b, v, t, b', p, bw, 1);
    } else {
      DenotesOffset(b, v, t);
      ReadsAtGrows(b, b', v.u, ByteWidth(v.minWidth), v.ty, t);
      OffsetReads(b', p, v.u, ByteWidth(bw), ByteWidth(v.minWidth), v.ty, t);
    }
  }
}
