/** What the vectors, maps and the root that the builder writes stand for. */
module FlexFinish {
  import opened Options
  import opened Bytes
  import opened FlexTypes
  import opened FlexReader
  import opened FlexTree
  import opened FlexWidth
  import opened FlexImage
  import opened FlexVector
  import opened FlexVectorReads
  import opened FlexMap
  import opened FlexMapReads

  // ---------------------------------------------------------------- vectors

  /** What the source asserts: typed elements share a type, which the vector types provide for. */
  predicate ElementTypesOk(vs: seq<Value>, typed: bool, fixed: bool, keys: Option<Value>) {
    && (keys.Some? ==> !typed)
    && (fixed ==> typed && 2 <= |vs| <= 4 && vs[0].ty in {FBT_INT, FBT_UINT})
    && (typed && vs != [] ==> vs[0].ty in {FBT_INT, FBT_UINT, FBT_KEY, FBT_BOOL})
    && (typed ==> forall i :: 0 <= i < |vs| ==> vs[i].ty == vs[0].ty)
  }

  function VectorType(vs: seq<Value>, typed: bool, fixed: bool, keys: Option<Value>): Type
    requires ElementTypesOk(vs, typed, fixed, keys)
  {
    if keys.Some? then FBT_MAP
    else if !typed then FBT_VECTOR
    else ToTypedVector(if vs == [] then FBT_KEY else vs[0].ty, if fixed then |vs| else 0)
  }

  lemma StridedPlaced(vs: seq<Value>, i: nat, step: nat, n: nat)
    requires step > 0 && AllPlaced(vs, n)
    ensures AllPlaced(Strided(vs, i, step), n)
  {
  }

  /** What `CreateVector` needs. */
  ghost predicate CanCreate(b: seq<byte>, stack: seq<Value>, start: nat, step: nat, typed: bool, fixed: bool,
                            keys: Option<Value>) {
    && step > 0 && AllPlaced(stack, |b|) && Roomy(|b|, |stack| + 3) && KeysPlaced(keys, |b|)
    && ElementTypesOk(Strided(stack, start, step), typed, fixed, keys)
  }

  /** The buffer after `CreateVector`, and the value that it returns. */
  ghost function Created(b: seq<byte>, stack: seq<Value>, start: nat, step: nat, typed: bool, fixed: bool,
                         keys: Option<Value>, force: BitWidth): (r: (seq<byte>, Value))
    requires step > 0 && AllPlaced(stack, |b|) && Roomy(|b|, |stack| + 3) && KeysPlaced(keys, |b|)
    requires ElementTypesOk(Strided(stack, start, step), typed, fixed, keys)
  {
    StridedPlaced(stack, start, step, |b|);
    var vs := Strided(stack, start, step);
    var bw := VectorWidth(|b|, stack, start, step, force, keys);
    (Built(b, vs, bw, typed, fixed, keys),
     Value(ElemsAt(AlignUp(|b|, bw), ByteWidth(bw), fixed, keys), VectorType(vs, typed, fixed, keys), bw))
  }

  function ElementType(t: Tree): Type {
    if t.Bool? then FBT_BOOL else if t.Int? then FBT_INT else if t.UInt? then FBT_UINT else FBT_KEY
  }

  /** The same demand, on what the values denote. */
  ghost predicate TreesOk(ts: seq<Tree>, typed: bool, fixed: bool) {
    && (fixed ==> typed && 2 <= |ts| <= 4 && ElementType(ts[0]) in {FBT_INT, FBT_UINT})
    && (typed ==> forall i :: 0 <= i < |ts| ==> IsTypedElement(ts[i]) && ElementType(ts[i]) == ElementType(ts[0]))
  }

  /** An empty typed vector has lost its element type: the builder starts from keys. */
  ghost function VectorTree(ts: seq<Tree>, typed: bool, fixed: bool): Tree {
    var ety := if ts == [] then FBT_KEY else ElementType(ts[0]);
    if !typed then Vector(ts) else if fixed then FixedVector(ety, ts) else Tree.TypedVector(ety, ts)
  }

  /** The element type is kept exactly when there is an element to take it from, or it is the one to start from. */
  lemma TypeKeptExactly(ts: seq<Tree>, ety: Type)
    requires forall k :: 0 <= k < |ts| ==> IsTypedElement(ts[k]) && ElementType(ts[k]) == ety
    ensures VectorTree(ts, true, false) == Tree.TypedVector(ety, ts) <==> ts != [] || ety == FBT_KEY
    ensures VectorTree([], true, false) == Tree.TypedVector(FBT_KEY, [])
  {
  }

  lemma ElementTypeDenoted(b: seq<byte>, v: Value, t: Tree)
    requires Denotes(b, v, t) && IsTypedElement(t)
    ensures v.ty == ElementType(t)
  {
  }

  lemma TypesDenoted(b: seq<byte>, vs: seq<Value>, ts: seq<Tree>, typed: bool, fixed: bool)
    requires AllDenote(b, vs, ts) && TreesOk(ts, typed, fixed)
    ensures ElementTypesOk(vs, typed, fixed, None)
    ensures typed && vs != [] ==> AllOfType(vs, ts, ElementType(ts[0])) && vs[0].ty == ElementType(ts[0])
  {
    if typed {
      forall i | 0 <= i < |vs|
        ensures vs[i].ty == ElementType(ts[0])
      {
        ElementTypeDenoted(b, vs[i], ts[i]);
      }
    }
  }

  /** The vector that `EndVector` pushes denotes the vector of what its elements denote. */
  lemma VectorDenoted(b: seq<byte>, b': seq<byte>, p: nat, vs: seq<Value>, ts: seq<Tree>, bw: BitWidth, typed: bool,
                      fixed: bool)
    requires Extends(b, b', p, vs, ts, bw, typed, fixed) && TreesOk(ts, typed, fixed)
    requires ElementTypesOk(vs, typed, fixed, None)
    ensures Denotes(b', Value(p, VectorType(vs, typed, fixed, None), bw), VectorTree(ts, typed, fixed))
  {
    TypesDenoted(b, vs, ts, typed, fixed);
    if !typed {
      VectorReads(b, b', p, vs, ts, bw);
    } else if fixed {
      FixedReads(b, b', p, vs, ts, bw, ElementType(ts[0]));
    } else {
      var ety := if ts == [] then FBT_KEY else ElementType(ts[0]);
      TypedReads(b, b', p, vs, ts, bw, ety);
    }
  }

  // ---------------------------------------------------------------- the root

  /** What `Finish` appends for the root value. */
  ghost function RootImage(n: nat, v: Value, bw: BitWidth): seq<byte>
    requires IsU64(n) && Placed(v, n)
  {
    Zeros(AlignUp(n, bw) - n) + AnyBytes(v, AlignUp(n, bw), ByteWidth(bw))
    + [v.StoredPackedType(BIT_WIDTH_8)] + [ByteWidth(bw)]
  }

  lemma RootFrom(b: seq<byte>, v: Value, bw: BitWidth)
    requires IsU64(|b|) && Placed(v, |b|)
    ensures var p := AlignUp(|b|, bw);
            b + Zeros(p - |b|) + AnyBytes(v, p, ByteWidth(bw)) + ToLE(v.StoredPackedType(BIT_WIDTH_8), 1)
              + ToLE(ByteWidth(bw), 1)
            == b + RootImage(|b|, v, bw)
  {
    var p := AlignUp(|b|, bw);
    Regroup(b, Zeros(p - |b|), AnyBytes(v, p, ByteWidth(bw)), [v.StoredPackedType(BIT_WIDTH_8)], [ByteWidth(bw)]);
    SingleByte(v.StoredPackedType(BIT_WIDTH_8));
    SingleByte(ByteWidth(bw));
  }

  lemma SingleByte(x: byte)
    ensures ToLE(x, 1) == [x]
  {
    assert ToLE(x / 256, 0) == [];
  }

  lemma RootFound(b: seq<byte>, v: Value, bw: BitWidth)
    requires IsU64(|b|) && Placed(v, |b|) && v.ty <= FBT_VECTOR_BOOL
    ensures var b' := b + RootImage(|b|, v, bw);
            var p := AlignUp(|b|, bw);
            && b <= b' && HasBytes(b', p, AnyBytes(v, p, ByteWidth(bw)))
            && GetRoot(b') == Some(Unpack(p, ByteWidth(bw), v.StoredPackedType(BIT_WIDTH_8)))
  {
    var p, w := AlignUp(|b|, bw), ByteWidth(bw);
    var zeros, cell, packed := Zeros(p - |b|), AnyBytes(v, p, w), v.StoredPackedType(BIT_WIDTH_8);
    var b' := b + RootImage(|b|, v, bw);
    assert b' == (b + zeros) + cell + ([packed] + [w]);
    assert HasBytes(cell, 0, cell);
    HasBytesWithin(b + zeros, cell, [packed] + [w], 0, cell);
    assert |b'| == p + w + 2;
    assert b'[|b'| - 1..|b'|] == [w] && b'[|b'| - 2..|b'| - 1] == [packed];
  }

  /** After `Finish`, the root reference reads what the last value on the stack denotes. */
  lemma RootReads(b: seq<byte>, v: Value, t: Tree)
    requires |b| + 8 < TWO_64 && Denotes(b, v, t)
    ensures Placed(v, |b|)
    ensures var b' := b + RootImage(|b|, v, ElemWidth(v, |b|, 0));
            GetRoot(b').Some? && Reads(b', GetRoot(b').value, t)
  {
    DenotesPlaced(b, v, t);
    DenotesKnownType(b, v, t);
    var bw := ElemWidth(v, |b|, 0);
    RootFound(b, v, bw);
    HoldsStays(v, |b|, 0, bw, 0);
    RootCellReads(b, v, t, b + RootImage(|b|, v, bw), AlignUp(|b|, bw), bw);
  }

  lemma RootCellReads(b: seq<byte>, v: Value, t: Tree, b': seq<byte>, p: nat, bw: BitWidth)
    requires Denotes(b, v, t) && b <= b' && v.ty <= FBT_VECTOR_BOOL && Placed(v, p) && Holds(v, p, bw)
    requires HasBytes(b', p, AnyBytes(v, p, ByteWidth(bw)))
    ensures Reads(b', Unpack(p, ByteWidth(bw), v.StoredPackedType(BIT_WIDTH_8)), t)
  {
    PackedUnpacks(v, p, ByteWidth(bw), BIT_WIDTH_8);
    if IsScalarTree(t) {
      ScalarReads(b, v, t, b', p, bw, ByteWidth(v.StoredWidth(BIT_WIDTH_8)));
    } else {
      DenotesOffset(b, v, t);
      ReadsAtGrows(b, b', v.u, ByteWidth(v.minWidth), v.ty, t);
      OffsetReads(b', p, v.u, ByteWidth(bw), ByteWidth(v.minWidth), v.ty, t);
    }
  }

  lemma DenotesKnownType(b: seq<byte>, v: Value, t: Tree)
    requires Denotes(b, v, t)
    ensures v.ty <= FBT_VECTOR_BOOL
  {
  }

  // ---------------------------------------------------------------- maps

  ghost predicate AllKeys(ts: seq<Tree>) {
    forall i :: 0 <= i < |ts| ==> ts[i].Key?
  }

  function KeyContents(ts: seq<Tree>): (ks: seq<seq<byte>>)
    requires AllKeys(ts)
    ensures |ks| == |ts| && forall i :: 0 <= i < |ks| ==> ks[i] == ts[i].k
  {
    seq(|ts|, i requires 0 <= i < |ts| => ts[i].k)
  }

  /** The keys as the comparison function of the sort finds them in the buffer. */
  function KeysInBuffer(b: seq<byte>, vs: seq<Value>): (ks: seq<seq<byte>>)
    requires forall i :: 0 <= i < |vs| ==> CStr(b, vs[i].u).Some?
    ensures |ks| == |vs| && forall i :: 0 <= i < |ks| ==> Some(ks[i]) == CStr(b, vs[i].u)
  {
    seq(|vs|, i requires 0 <= i < |vs| => CStr(b, vs[i].u).value)
  }

  lemma KeyDenoted(b: seq<byte>, v: Value, t: Tree)
    requires Denotes(b, v, t) && t.Key?
    ensures v.ty == FBT_KEY && CStr(b, v.u) == Some(t.k)
  {
  }

  lemma KeysDenoted(b: seq<byte>, vs: seq<Value>, ts: seq<Tree>)
    requires AllDenote(b, vs, ts) && AllKeys(ts)
    ensures forall i :: 0 <= i < |vs| ==> CStr(b, vs[i].u).Some? && vs[i].ty == FBT_KEY
    ensures KeysInBuffer(b, vs) == KeyContents(ts)
    ensures ElementTypesOk(vs, true, false, None) && TreesOk(ts, true, false)
  {
    forall i | 0 <= i < |vs|
      ensures CStr(b, vs[i].u) == Some(ts[i].k) && vs[i].ty == FBT_KEY
    {
      KeyDenoted(b, vs[i], ts[i]);
    }
  }

  lemma PickDenotes(b: seq<byte>, vs: seq<Value>, ts: seq<Tree>, order: seq<nat>)
    requires AllDenote(b, vs, ts) && Below(order, |vs|)
    ensures AllDenote(b, Pick(vs, order), Pick(ts, order))
  {
  }

  /** Keys and values, alternating. */
  function Interleave<T>(ks: seq<T>, vs: seq<T>): (s: seq<T>)
    requires |ks| == |vs|
    ensures |s| == 2 * |ks|
  {
    if ks == [] then [] else [ks[0], vs[0]] + Interleave(ks[1..], vs[1..])
  }

  lemma {:induction false} InterleaveStrided<T>(a: seq<T>, ks: seq<T>, vs: seq<T>)
    requires |ks| == |vs|
    ensures Strided(a + Interleave(ks, vs), |a|, 2) == ks
    ensures Strided(a + Interleave(ks, vs), |a| + 1, 2) == vs
    decreases |ks|
  {
    if ks != [] {
      var s := a + Interleave(ks, vs);
      var a' := a + [ks[0], vs[0]];
      assert s == a' + Interleave(ks[1..], vs[1..]);
      InterleaveStrided(a', ks[1..], vs[1..]);
      assert s[|a|] == ks[0] && s[|a| + 1] == vs[0];
      assert Strided(s, |a|, 2) == [ks[0]] + ks[1..];
      assert Strided(s, |a| + 1, 2) == [vs[0]] + vs[1..];
    }
  }

  lemma {:induction false} StridedHalves<T>(s: seq<T>, i: nat)
    requires i <= |s| && (|s| - i) % 2 == 0
    ensures |Strided(s, i, 2)| == (|s| - i) / 2
    ensures |Strided(s, i + 1, 2)| == (|s| - i) / 2
    decreases |s| - i
  {
    if i < |s| {
      StridedHalves(s, i + 2);
    }
  }

  /** Keys in the order in which they are sorted. */
  lemma PickedAscend(ts: seq<Tree>)
    requires AllKeys(ts)
    ensures var ks := KeyContents(ts);
            && Below(SortOrder(ks, |ks|), |ts|) && AllKeys(Pick(ts, SortOrder(ks, |ks|)))
            && (Distinct(ks) ==> Ascending(KeyContents(Pick(ts, SortOrder(ks, |ks|)))))
  {
    hide Ascending;
    var ks := KeyContents(ts);
    PickedKeys(ts, SortOrder(ks, |ks|));
    assert KeyContents(Pick(ts, SortOrder(ks, |ks|))) == Pick(ks, SortOrder(ks, |ks|));
    if Distinct(ks) {
      SortedAscends(ks);
    }
  }

  lemma PickedKeys(ts: seq<Tree>, order: seq<nat>)
    requires AllKeys(ts) && Below(order, |ts|)
    ensures KeyTrees(Pick(KeyContents(ts), order)) == Pick(ts, order)
  {
    var ks := Pick(KeyContents(ts), order);
    forall j | 0 <= j < |order|
      ensures KeyTrees(ks)[j] == Pick(ts, order)[j]
    {
    }
  }

  /** The sorted pairs make the same map, with their keys in ascending order. */
  lemma SortedPairs(ks: seq<seq<byte>>, ts: seq<Tree>, order: seq<nat>)
    requires |ks| == |ts| && Distinct(ks) && order == SortOrder(ks, |ks|)
    ensures Ascending(Pick(ks, order))
    ensures MapOf(Pick(ks, order), Pick(ts, order)) == MapOf(ks, ts)
  {
    SortedAscends(ks);
    AscendingDistinct(Pick(ks, order));
    MapOfPicked(ks, ts, order);
  }

  /** The vector of keys, written first. */
  lemma MapKeysDenoted(b: seq<byte>, stack: seq<Value>, start: nat, ks: seq<seq<byte>>, force: BitWidth)
    requires AllPlaced(stack, |b|) && Roomy(|b|, |stack| + 3)
    requires AllDenote(b, Strided(stack, start, 2), KeyTrees(ks))
    ensures var vs := Strided(stack, start, 2);
            && AllPlaced(vs, |b|) && ElementTypesOk(vs, true, false, None)
            && var bw := VectorWidth(|b|, stack, start, 2, force, None);
            && var b' := Built(b, vs, bw, true, false, None);
            && var p := ElemsAt(AlignUp(|b|, bw), ByteWidth(bw), false, None);
            && (|b'| < TWO_64 ==> Denotes(b', Value(p, FBT_VECTOR_KEY, bw), Tree.TypedVector(FBT_KEY, KeyTrees(ks))))
            && VectorType(vs, true, false, None) == FBT_VECTOR_KEY
  {
    var vs, ts := Strided(stack, start, 2), KeyTrees(ks);
    KeysDenoted(b, vs, ts);
    WidthSuffices(|b|, stack, start, 2, force, false, None);
    var bw := VectorWidth(|b|, stack, start, 2, force, None);
    var b' := Built(b, vs, bw, true, false, None);
    if |b'| < TWO_64 {
      var p := ElemsAt(AlignUp(|b|, bw), ByteWidth(bw), false, None);
      BuiltExtends(b, vs, ts, bw, true, false, None, p);
      TypedReads(b, b', p, vs, ts, bw, FBT_KEY);
    }
  }

  /** The keys are found again from the position of the values. */
  lemma ImageKeys(b: seq<byte>, vs: seq<Value>, bw: BitWidth, keys: Value)
    requires AllPlaced(vs, |b|) && KeysPlaced(Some(keys), |b|) && |b| - keys.u < Pow256(ByteWidth(bw))
    ensures KeysOf(b + VectorImage(|b|, vs, bw, false, false, Some(keys)),
                   ElemsAt(|b|, ByteWidth(bw), false, Some(keys)), ByteWidth(bw))
            == Some(FlexReader.TypedVector(keys.u, ByteWidth(keys.minWidth), FBT_KEY))
  {
    var w := ByteWidth(bw);
    var p := ElemsAt(|b|, w, false, Some(keys));
    var size, all, types := SizeBytes(|vs|, w, false), AllBytes(vs, p, w), TypeBytes(vs, bw);
    RegroupFront(b, KeysBytes(|b|, w, Some(keys)), size, all, types);
    CellsIs(3, w);
    KeysPart(b, keys, w, size + all + types);
  }

  lemma BuiltKeys(b: seq<byte>, vs: seq<Value>, bw: BitWidth, keys: Value)
    requires IsU64(|b|) && AllPlaced(vs, |b|) && KeysPlaced(Some(keys), |b|)
    requires AlignUp(|b|, bw) - keys.u < Pow256(ByteWidth(bw))
    ensures KeysOf(Built(b, vs, bw, false, false, Some(keys)),
                   ElemsAt(AlignUp(|b|, bw), ByteWidth(bw), false, Some(keys)), ByteWidth(bw))
            == Some(FlexReader.TypedVector(keys.u, ByteWidth(keys.minWidth), FBT_KEY))
  {
    hide KeysOf, VectorImage, ElemsAt;
    ImageKeys(b + Zeros(AlignUp(|b|, bw) - |b|), vs, bw, keys);
  }

  lemma RegroupFront<T>(a: seq<T>, b: seq<T>, c: seq<T>, d: seq<T>, e: seq<T>)
    ensures a + (b + c + d + e) == a + b + (c + d + e)
  {
  }

  /** The vector of values with its keys, written second. */
  lemma MapValuesDenoted(b: seq<byte>, stack: seq<Value>, start: nat, keys: Value, ks: seq<seq<byte>>, ts: seq<Tree>,
                         force: BitWidth)
    requires AllPlaced(stack, |b|) && Roomy(|b|, |stack| + 3)
    requires AllDenote(b, Strided(stack, start, 2), ts) && |ks| == |ts| && Ascending(ks)
    requires Denotes(b, keys, Tree.TypedVector(FBT_KEY, KeyTrees(ks)))
    ensures KeysPlaced(Some(keys), |b|)
    ensures var vs := Strided(stack, start, 2);
            && AllPlaced(vs, |b|)
            && var bw := VectorWidth(|b|, stack, start, 2, force, Some(keys));
            && var b' := Built(b, vs, bw, false, false, Some(keys));
            && var p := ElemsAt(AlignUp(|b|, bw), ByteWidth(bw), false, Some(keys));
            && (|b'| < TWO_64 ==> Denotes(b', Value(p, FBT_MAP, bw), Map(MapOf(ks, ts))))
  {
    var vs := Strided(stack, start, 2);
    DenotesPlaced(b, keys, Tree.TypedVector(FBT_KEY, KeyTrees(ks)));
    DenotesOffset(b, keys, Tree.TypedVector(FBT_KEY, KeyTrees(ks)));
    WidthSuffices(|b|, stack, start, 2, force, false, Some(keys));
    var bw := VectorWidth(|b|, stack, start, 2, force, Some(keys));
    var b' := Built(b, vs, bw, false, false, Some(keys));
    var p := ElemsAt(AlignUp(|b|, bw), ByteWidth(bw), false, Some(keys));
    if |b'| < TWO_64 {
      BuiltExtends(b, vs, ts, bw, false, false, Some(keys), p);
      BuiltKeys(b, vs, bw, keys);
      MapReads(b, b', p, vs, ts, bw, keys, ks);
    }
  }

  // ---------------------------------------------------------------- scalar vectors

  /** An element of a scalar vector: a number of `bw` bits, signed, unsigned or boolean. */
  predicate IsElement(x: int, ety: Type, bw: BitWidth) {
    if ety == FBT_INT then IsI64(x) && FitsSigned(x, bw)
    else if ety == FBT_UINT then 0 <= x < Pow256(ByteWidth(bw))
    else ety == FBT_BOOL && bw == BIT_WIDTH_8 && 0 <= x <= 1
  }

  ghost predicate AllElements(xs: seq<int>, ety: Type, bw: BitWidth) {
    forall i :: 0 <= i < |xs| ==> IsElement(xs[i], ety, bw)
  }

  /** The stack value that would write the same bytes. */
  function ElementValue(x: int, ety: Type, bw: BitWidth): (v: Value)
    requires IsElement(x, ety, bw)
    ensures IsU64(v.u) && v.ty == ety
  {
    Powers();
    if ety == FBT_INT then Value(ToU64(x), FBT_INT, WidthI(x))
    else if ety == FBT_UINT then Value(x, FBT_UINT, WidthU(x))
    else Value(x, FBT_BOOL, BIT_WIDTH_8)
  }

  function ElementTree(x: int, ety: Type): Tree
    requires ety == FBT_UINT ==> x >= 0
  {
    if ety == FBT_INT then Tree.Int(x) else if ety == FBT_UINT then Tree.UInt(x) else Tree.Bool(x != 0)
  }

  function ElementValues(xs: seq<int>, ety: Type, bw: BitWidth): (vs: seq<Value>)
    requires AllElements(xs, ety, bw)
    ensures |vs| == |xs| && forall i :: 0 <= i < |xs| ==> vs[i] == ElementValue(xs[i], ety, bw)
  {
    seq(|xs|, i requires 0 <= i < |xs| => ElementValue(xs[i], ety, bw))
  }

  ghost function ElementTrees(xs: seq<int>, ety: Type, bw: BitWidth): (ts: seq<Tree>)
    requires AllElements(xs, ety, bw)
    ensures |ts| == |xs| && forall i :: 0 <= i < |xs| ==> ts[i] == ElementTree(xs[i], ety)
  {
    seq(|xs|, i requires 0 <= i < |xs| => ElementTree(xs[i], ety))
  }

  lemma ElementDenoted(b: seq<byte>, x: int, ety: Type, bw: BitWidth, p: nat)
    requires IsElement(x, ety, bw)
    ensures var v := ElementValue(x, ety, bw);
            Denotes(b, v, ElementTree(x, ety)) && Placed(v, p) && Holds(v, p, bw)
  {
    Powers();
    if ety == FBT_INT {
      WidthIIsLeast(x, bw);
    } else if ety == FBT_UINT {
      WidthUIs(x, bw);
    }
  }

  lemma ElementsDenoted(b: seq<byte>, xs: seq<int>, ety: Type, bw: BitWidth, p: nat)
    requires AllElements(xs, ety, bw) && |b| <= p
    ensures var vs := ElementValues(xs, ety, bw);
            AllPlaced(vs, |b|) && AllPlaced(vs, p) && AllHold(vs, p, bw) && AllDenote(b, vs, ElementTrees(xs, ety, bw))
  {
    forall k | 0 <= k < |xs|
      ensures var v := ElementValue(xs[k], ety, bw);
              && Denotes(b, v, ElementTree(xs[k], ety))
              && Placed(v, p) && Placed(v, |b|) && Holds(v, p + Cells(k, ByteWidth(bw)), bw)
    {
      ElementDenoted(b, xs[k], ety, bw, p + Cells(k, ByteWidth(bw)));
      ElementDenoted(b, xs[k], ety, bw, |b|);
    }
  }

  /** The buffer after `ScalarVector`: size unless fixed, then the elements. */
  function WithScalars(b: seq<byte>, xs: seq<int>, ety: Type, bw: BitWidth, fixed: bool): seq<byte>
    requires AllElements(xs, ety, bw) && ety in {FBT_INT, FBT_UINT, FBT_BOOL}
  {
    var w := ByteWidth(bw);
    var p := ElemsAt(|b|, w, fixed, None);
    b + SizeBytes(|xs|, w, fixed) + AllBytes(ElementValues(xs, ety, bw), p, w)
  }

  lemma ScalarsExtend(b: seq<byte>, xs: seq<int>, ety: Type, bw: BitWidth, fixed: bool)
    requires AllElements(xs, ety, bw) && ety in {FBT_INT, FBT_UINT, FBT_BOOL}
    requires |xs| < Pow256(ByteWidth(bw)) && |WithScalars(b, xs, ety, bw, fixed)| < TWO_64
    ensures Extends(b, WithScalars(b, xs, ety, bw, fixed), ElemsAt(|b|, ByteWidth(bw), fixed, None),
                    ElementValues(xs, ety, bw), ElementTrees(xs, ety, bw), bw, true, fixed)
  {
    var vs, w := ElementValues(xs, ety, bw), ByteWidth(bw);
    var p := ElemsAt(|b|, w, fixed, None);
    ElementsDenoted(b, xs, ety, bw, p);
    ImageLaid(b, vs, bw, true, fixed, None);
    LaidInside(b, vs, bw, true, fixed, None);
    WithoutKeys(b, SizeBytes(|xs|, w, fixed), AllBytes(vs, p, w));
  }

  lemma WithoutKeys(a: seq<byte>, b: seq<byte>, c: seq<byte>)
    ensures a + ([] + b + c + []) == a + b + c
  {
  }

  lemma ScalarVectorDenoted(b: seq<byte>, xs: seq<int>, ety: Type, bw: BitWidth, fixed: bool)
    requires AllElements(xs, ety, bw) && ety in {FBT_INT, FBT_UINT, FBT_BOOL}
    requires |xs| < Pow256(ByteWidth(bw)) && |WithScalars(b, xs, ety, bw, fixed)| < TWO_64
    requires fixed ==> 2 <= |xs| <= 4 && ety != FBT_BOOL
    ensures var ts := ElementTrees(xs, ety, bw);
            Denotes(WithScalars(b, xs, ety, bw, fixed),
                    Value(ElemsAt(|b|, ByteWidth(bw), fixed, None), ToTypedVector(ety, if fixed then |xs| else 0), bw),
                    if fixed then FixedVector(ety, ts) else Tree.TypedVector(ety, ts))
  {
    var vs, ts := ElementValues(xs, ety, bw), ElementTrees(xs, ety, bw);
    var b' := WithScalars(b, xs, ety, bw, fixed);
    var p := ElemsAt(|b|, ByteWidth(bw), fixed, None);
    ScalarsExtend(b, xs, ety, bw, fixed);
    if fixed {
      FixedReads(b, b', p, vs, ts, bw, ety);
    } else {
      TypedReads(b, b', p, vs, ts, bw, ety);
    }
  }
}
