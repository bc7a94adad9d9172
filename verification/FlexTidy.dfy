/** What the builder writes is tidy: no number shares a byte with another one, or with anything else that is read. */
module FlexTidy {
  import opened Options
  import opened Bytes
  import opened FlexTypes
  import opened FlexReader
  import opened FlexTree
  import opened FlexWidth
  import opened FlexImage
  import opened FlexVectorReads
  import FlexMap
  import opened FlexMapReads
  import opened FlexFinish
  import opened FlexFootprint
  import opened FlexReplace

  ghost function Below(n: nat): iset<int> { Range(0, n) }

  // ---------------------------------------------------------------- the values on the stack

  ghost predicate ValueParted(b: seq<byte>, v: Value, t: Tree, s: iset<int>, m: iset<int>) {
    IsScalarTree(t) || PartedAt(b, v.u, ByteWidth(v.minWidth), t, s, m)
  }

  /** `s` has the bytes that are not numbers, `ms` those of the numbers of each value. */
  ghost predicate Tidy(b: seq<byte>, vs: seq<Value>, ts: seq<Tree>, s: iset<int>, ms: seq<iset<int>>) {
    && |ms| == |vs| == |ts| && s <= Below(|b|) && Disjoint(ms)
    && forall i :: 0 <= i < |vs| ==> ms[i] <= Below(|b|) && ms[i] !! s && ValueParted(b, vs[i], ts[i], s, ms[i])
  }

  lemma {:induction false} PartedMore(b: seq<byte>, r: Reference, t: Tree, s: iset<int>, m: iset<int>, s': iset<int>,
                                      m': iset<int>)
    requires Parted(b, r, t, s, m) && s <= s' && m <= m'
    ensures Parted(b, r, t, s', m')
    decreases t, 2
  {
    if !t.Null? && !t.Bool? && !t.Int? && !t.UInt? {
      PartedAtMore(b, Target(b, r).value, r.byteWidth, t, s, m, s', m');
    }
  }

  lemma {:induction false} PartedAtMore(b: seq<byte>, pos: int, w: nat, t: Tree, s: iset<int>, m: iset<int>,
                                        s': iset<int>, m': iset<int>)
    requires PartedAt(b, pos, w, t, s, m) && s <= s' && m <= m'
    ensures PartedAt(b, pos, w, t, s', m')
    decreases t, 1
  {
    if IsCompound(t) {
      hide FrameIn;
      FrameMore(b, pos, w, t, s, s');
      var ms: seq<iset<int>> :| ElemsParted(b, pos, w, t, s, m, ms);
      forall i | 0 <= i < Count(t)
        ensures ElemParted(b, pos, w, t, i, s', ms[i])
      {
        assert ElemParted(b, pos, w, t, i, s, ms[i]);
        PartedMore(b, ElemRef(b, pos, w, t, i).value, ElemTree(b, pos, w, t, i), s, ms[i], s', ms[i]);
      }
      assert ElemsParted(b, pos, w, t, s', m', ms);
    }
  }

  /** A value stays parted while the buffer grows. */
  lemma ValueGrows(b: seq<byte>, b': seq<byte>, v: Value, t: Tree, s: iset<int>, m: iset<int>, s': iset<int>,
                   m': iset<int>)
    requires b <= b' && Denotes(b, v, t) && ValueParted(b, v, t, s, m) && s <= s' && m <= m'
    ensures ValueParted(b', v, t, s', m')
  {
    if !IsScalarTree(t) {
      hide ReadsAt, PartedAt;
      DenotesOffset(b, v, t);
      PartedAtAgrees(b, b', v.u, ByteWidth(v.minWidth), v.ty, t, s, m);
      PartedAtMore(b', v.u, ByteWidth(v.minWidth), t, s, m, s', m');
    }
  }

  // ---------------------------------------------------------------- the cells of a vector

  predicate IsNumberType(ty: Type) { ty == FBT_INT || ty == FBT_UINT }

  /** The byte is in a cell that holds a number. */
  ghost predicate NumberCell(vs: seq<Value>, p: nat, w: nat, x: int) {
    exists k :: 0 <= k < |vs| && IsNumberType(vs[k].ty) && CellOf(p, w, k, x)
  }

  ghost predicate CellOf(p: nat, w: nat, k: nat, x: int) { Within(x, p + Cells(k, w), w) }

  lemma CellsApart(p: nat, w: nat, j: nat, k: nat, x: int)
    requires CellOf(p, w, j, x) && CellOf(p, w, k, x)
    ensures j == k
  {
    if j < k {
      CellsBelow(j, k, w);
    } else if k < j {
      CellsBelow(k, j, w);
    }
  }

  lemma CellWithin(p: nat, w: nat, k: nat, n: nat, x: int)
    requires k < n && CellOf(p, w, k, x)
    ensures p <= x < p + Cells(n, w)
  {
    CellsBelow(k, n, w);
  }

  /** All that is added but the numbers. */
  ghost function Structure(s: iset<int>, from: nat, to: nat, vs: seq<Value>, p: nat, w: nat): iset<int> {
    s + iset x | Added(from, to, vs, p, w, x)
  }

  ghost predicate Added(from: nat, to: nat, vs: seq<Value>, p: nat, w: nat, x: int) {
    from <= x < to && !NumberCell(vs, p, w, x)
  }

  /** The numbers below a value, and its cell if it is a number. */
  ghost function WithCell(v: Value, m: iset<int>, p: nat, w: nat, k: nat): iset<int> {
    if IsNumberType(v.ty) then m + Range(p + Cells(k, w), w) else m
  }

  ghost function WithCells(vs: seq<Value>, ms: seq<iset<int>>, p: nat, w: nat): (r: seq<iset<int>>)
    requires |ms| == |vs|
    ensures |r| == |vs| && forall k :: 0 <= k < |vs| ==> r[k] == WithCell(vs[k], ms[k], p, w, k)
  {
    seq(|vs|, k requires 0 <= k < |vs| => WithCell(vs[k], ms[k], p, w, k))
  }

  ghost function Union(ms: seq<iset<int>>): iset<int> {
    iset x | InSome(ms, x)
  }

  ghost predicate InSome(ms: seq<iset<int>>, x: int) { exists k :: 0 <= k < |ms| && x in ms[k] }

  /** The cell of a value that is not a number is part of the structure. */
  lemma CellStructure(s: iset<int>, from: nat, to: nat, vs: seq<Value>, p: nat, w: nat, k: nat)
    requires k < |vs| && !IsNumberType(vs[k].ty) && from <= p && p + Cells(k, w) + w <= to
    ensures In(p + Cells(k, w), w, Structure(s, from, to, vs, p, w))
  {
    forall x | p + Cells(k, w) <= x < p + Cells(k, w) + w
      ensures Added(from, to, vs, p, w, x)
    {
      assert CellOf(p, w, k, x);
      if NumberCell(vs, p, w, x) {
        var j :| 0 <= j < |vs| && IsNumberType(vs[j].ty) && CellOf(p, w, j, x);
        CellsApart(p, w, j, k, x);
      }
    }
  }

  /** What lies outside the cells is part of the structure. */
  lemma OutsideStructure(s: iset<int>, from: nat, to: nat, vs: seq<Value>, p: nat, w: nat, q: int, n: nat)
    requires from <= q && q + n <= to && (q + n <= p || p + Cells(|vs|, w) <= q)
    ensures In(q, n, Structure(s, from, to, vs, p, w))
  {
    forall x | q <= x < q + n
      ensures Added(from, to, vs, p, w, x)
    {
      if NumberCell(vs, p, w, x) {
        var j :| 0 <= j < |vs| && IsNumberType(vs[j].ty) && CellOf(p, w, j, x);
        CellWithin(p, w, j, |vs|, x);
      }
    }
  }

  /** The numbers of the elements stay apart, from one another and from the structure. */
  lemma WithCellsTidy(n: nat, to: nat, vs: seq<Value>, s: iset<int>, ms: seq<iset<int>>, p: nat, w: nat)
    requires |ms| == |vs| && s <= Below(n) && Disjoint(ms) && n <= p && p + Cells(|vs|, w) <= to
    requires forall i :: 0 <= i < |vs| ==> ms[i] <= Below(n) && ms[i] !! s
    ensures Disjoint(WithCells(vs, ms, p, w))
    ensures Union(WithCells(vs, ms, p, w)) <= Below(to)
    ensures Union(WithCells(vs, ms, p, w)) !! Structure(s, n, to, vs, p, w)
    ensures Structure(s, n, to, vs, p, w) <= Below(to)
  {
    var r := WithCells(vs, ms, p, w);
    forall i, x | 0 <= i < |vs| && x in r[i] && x !in ms[i]
      ensures IsNumberType(vs[i].ty) && CellOf(p, w, i, x) && n <= x < to
    {
      CellWithin(p, w, i, |vs|, x);
    }
    forall i, j | 0 <= i < j < |r|
      ensures r[i] !! r[j]
    {
      forall x | x in r[i] && x in r[j]
        ensures false
      {
        if x !in ms[i] && x !in ms[j] {
          CellsApart(p, w, i, j, x);
        }
      }
    }
  }

  // ---------------------------------------------------------------- one element

  lemma WidthIsSize(w: nat)
    requires w in {1, 2, 4, 8}
    ensures ScalarSize(w) == w
  {
  }

  /** An element written into its cell, seen through a reference to that cell. */
  lemma CellParted(b: seq<byte>, b': seq<byte>, v: Value, t: Tree, q: nat, bw: BitWidth, x: nat, s: iset<int>,
                   m: iset<int>, s': iset<int>, m': iset<int>)
    requires Denotes(b, v, t) && b <= b' && Placed(v, q) && Holds(v, q, bw)
    requires HasBytes(b', q, AnyBytes(v, q, ByteWidth(bw)))
    requires ValueParted(b, v, t, s, m) && s <= s' && m <= m'
    requires In(q, ByteWidth(bw), if IsNumberType(v.ty) then m' else s') && Lies(q, ByteWidth(bw))
    requires x == ByteWidth(v.minWidth) || t.Key? || IsScalarTree(t)
    ensures Parted(b', Reference(q, ByteWidth(bw), x, v.ty), t, s', m')
  {
    hide ReadsAt, PartedAt, HasBytes, In, Pow256, Lies;
    var w := ByteWidth(bw);
    WidthIsSize(w);
    TypeOfTree(b, v, t);
    if !IsScalarTree(t) {
      DenotesOffset(b, v, t);
      ValueGrows(b, b', v, t, s, m, s', m');
      OffsetTarget(b', q, v.u, w, x, v.ty);
      KeyAnyWidth(b', v.u, ByteWidth(v.minWidth), x, t, s', m');
    }
  }

  lemma TypeOfTree(b: seq<byte>, v: Value, t: Tree)
    requires Denotes(b, v, t)
    ensures IsNumberType(v.ty) <==> t.Int? || t.UInt?
  {
  }

  lemma KeyAnyWidth(b: seq<byte>, pos: int, w: nat, x: nat, t: Tree, s: iset<int>, m: iset<int>)
    requires PartedAt(b, pos, w, t, s, m) && (x == w || t.Key?)
    ensures PartedAt(b, pos, x, t, s, m)
  {
  }

  // ---------------------------------------------------------------- vectors

  /** A vector has been written behind `b`, out of values that are parted there. */
  ghost predicate Adds(b: seq<byte>, b': seq<byte>, p: nat, vs: seq<Value>, ts: seq<Tree>, bw: BitWidth, typed: bool,
                       fixed: bool, s: iset<int>, ms: seq<iset<int>>) {
    && Extends(b, b', p, vs, ts, bw, typed, fixed) && Tidy(b, vs, ts, s, ms)
    && Lies(p, ByteWidth(bw)) && |b| + (if fixed then 0 else ByteWidth(bw)) <= p
    && p + Cells(|vs|, ByteWidth(bw)) + (if typed then 0 else |vs|) <= |b'|
  }

  ghost function After(b: seq<byte>, b': seq<byte>, p: nat, vs: seq<Value>, bw: BitWidth, s: iset<int>): iset<int> {
    Structure(s, |b|, |b'|, vs, p, ByteWidth(bw))
  }

  lemma CellFits(b: seq<byte>, b': seq<byte>, p: nat, vs: seq<Value>, ts: seq<Tree>, bw: BitWidth, typed: bool,
                 fixed: bool, s: iset<int>, ms: seq<iset<int>>, k: nat)
    requires Adds(b, b', p, vs, ts, bw, typed, fixed, s, ms) && k < |vs|
    ensures |ms| == |vs| == |ts| && b <= b' && Lies(p, ByteWidth(bw))
    ensures var q, m := p + Cells(k, ByteWidth(bw)), WithCells(vs, ms, p, ByteWidth(bw))[k];
            && Denotes(b, vs[k], ts[k]) && Placed(vs[k], q) && Holds(vs[k], q, bw)
            && HasBytes(b', q, AnyBytes(vs[k], q, ByteWidth(bw)))
            && In(q, ByteWidth(bw), if IsNumberType(vs[k].ty) then m else After(b, b', p, vs, bw, s))
            && ValueParted(b, vs[k], ts[k], s, ms[k]) && ms[k] <= m && s <= After(b, b', p, vs, bw, s)
  {
    hide Denotes, Holds, AnyBytes, HasBytes, ValueParted, Cells, SizeBefore, TypesAfter;
    var w := ByteWidth(bw);
    assert CellHas(b', p, vs, w, k);
    CellsBelow(k, |vs|, w);
    CellNext(k, w);
    if !IsNumberType(vs[k].ty) {
      CellStructure(s, |b|, |b'|, vs, p, w, k);
    }
  }

  lemma CellNext(k: nat, w: nat)
    ensures Cells(k + 1, w) == Cells(k, w) + w
  {
  }

  /** Through its packed type, or its own type when all elements share it, an element is parted. */
  lemma ElementParted(b: seq<byte>, b': seq<byte>, p: nat, vs: seq<Value>, ts: seq<Tree>, bw: BitWidth, typed: bool,
                      fixed: bool, s: iset<int>, ms: seq<iset<int>>, k: nat)
    requires Adds(b, b', p, vs, ts, bw, typed, fixed, s, ms) && k < |vs|
    ensures |ms| == |vs| == |ts|
    ensures
      var q, w, m := p + Cells(k, ByteWidth(bw)), ByteWidth(bw), WithCells(vs, ms, p, ByteWidth(bw))[k];
      var s' := After(b, b', p, vs, bw, s);
      && Parted(b', Unpack(q, w, vs[k].StoredPackedType(bw)), ts[k], s', m)
      && (IsTypedElement(ts[k]) ==> Parted(b', Reference(q, w, 1, vs[k].ty), ts[k], s', m))
  {
    hide Denotes, Holds, AnyBytes, HasBytes, ValueParted, Cells, SizeBefore, TypesAfter, Parted, Adds, After, WithCells,
      In, Unpack;
    CellFits(b, b', p, vs, ts, bw, typed, fixed, s, ms, k);
    CellsLie(p, ByteWidth(bw), k);
    var q, w := p + Cells(k, ByteWidth(bw)), ByteWidth(bw);
    var m, s' := WithCells(vs, ms, p, w)[k], After(b, b', p, vs, bw, s);
    DenotesKnownType(b, vs[k], ts[k]);
    PackedUnpacks(vs[k], q, w, bw);
    if !IsScalarTree(ts[k]) {
      DenotesOffset(b, vs[k], ts[k]);
    }
    CellParted(b, b', vs[k], ts[k], q, bw, ByteWidth(vs[k].StoredWidth(bw)), s, ms[k], s', m);
    if IsTypedElement(ts[k]) {
      CellParted(b, b', vs[k], ts[k], q, bw, 1, s, ms[k], s', m);
    }
  }

  lemma FrameAdded(b: seq<byte>, b': seq<byte>, p: nat, vs: seq<Value>, ts: seq<Tree>, bw: BitWidth, typed: bool,
                   fixed: bool, s: iset<int>, ms: seq<iset<int>>)
    requires Adds(b, b', p, vs, ts, bw, typed, fixed, s, ms)
    ensures var s', w := After(b, b', p, vs, bw, s), ByteWidth(bw);
            && (!fixed ==> In(p - w, ScalarSize(w), s'))
            && (!typed ==> In(p + |vs| * w, |vs|, s'))
  {
    hide Extends, Tidy;
    var w := ByteWidth(bw);
    WidthIsSize(w);
    CellsIs(|vs|, w);
    if !fixed {
      OutsideStructure(s, |b|, |b'|, vs, p, w, p - w, w);
    }
    if !typed {
      OutsideStructure(s, |b|, |b'|, vs, p, w, p + Cells(|vs|, w), |vs|);
    }
  }

  /** The elements of a vector keep to their parts. */
  lemma VectorAdded(b: seq<byte>, b': seq<byte>, p: nat, vs: seq<Value>, ts: seq<Tree>, bw: BitWidth, typed: bool,
                    fixed: bool, s: iset<int>, ms: seq<iset<int>>, t: Tree)
    requires Adds(b, b', p, vs, ts, bw, typed, fixed, s, ms)
    requires IsCompound(t) && Count(t) == |ts| && FrameIn(b', p, ByteWidth(bw), t, After(b, b', p, vs, bw, s))
    requires forall k :: 0 <= k < |ts| ==> ElementAt(b', p, vs, ts, bw, t, k)
    requires PlaceLies(b', p, ByteWidth(bw), t)
    ensures PartedAt(b', p, ByteWidth(bw), t, After(b, b', p, vs, bw, s), Union(WithCells(vs, ms, p, ByteWidth(bw))))
  {
    hide FrameIn, Parted, After, Cells, HasElem, ElementAt, Extends, ElemParted, PlaceLies;
    var w, s', r := ByteWidth(bw), After(b, b', p, vs, bw, s), WithCells(vs, ms, p, ByteWidth(bw));
    SameCount(b, b', p, vs, ts, bw, typed, fixed);
    PartsTidy(b, b', p, vs, ts, bw, typed, fixed, s, ms);
    forall k | 0 <= k < |ts|
      ensures r[k] <= Union(r) && ElemParted(b', p, w, t, k, s', r[k])
    {
      InUnion(r, k);
      ElementParted(b, b', p, vs, ts, bw, typed, fixed, s, ms, k);
      ElementSeen(b', p, vs, ts, bw, t, k, s', r[k]);
    }
    assert ElemsParted(b', p, w, t, s', Union(r), r);
  }

  lemma SameCount(b: seq<byte>, b': seq<byte>, p: nat, vs: seq<Value>, ts: seq<Tree>, bw: BitWidth, typed: bool,
                  fixed: bool)
    requires Extends(b, b', p, vs, ts, bw, typed, fixed)
    ensures |vs| == |ts|
  {
  }

  lemma InUnion(ms: seq<iset<int>>, k: nat)
    requires k < |ms|
    ensures ms[k] <= Union(ms)
  {
    forall x | x in ms[k]
      ensures InSome(ms, x)
    {
    }
  }

  lemma PartsTidy(b: seq<byte>, b': seq<byte>, p: nat, vs: seq<Value>, ts: seq<Tree>, bw: BitWidth, typed: bool,
                  fixed: bool, s: iset<int>, ms: seq<iset<int>>)
    requires Adds(b, b', p, vs, ts, bw, typed, fixed, s, ms)
    ensures var s', r := After(b, b', p, vs, bw, s), WithCells(vs, ms, p, ByteWidth(bw));
            Disjoint(r) && Union(r) <= Below(|b'|) && Union(r) !! s' && s <= s' <= Below(|b'|)
  {
    hide Extends, ValueParted, Cells, WithCells, Union, Structure, Disjoint;
    WithCellsTidy(|b|, |b'|, vs, s, ms, p, ByteWidth(bw));
    StructureMore(s, |b|, |b'|, vs, p, ByteWidth(bw));
  }

  lemma StructureMore(s: iset<int>, from: nat, to: nat, vs: seq<Value>, p: nat, w: nat)
    ensures s <= Structure(s, from, to, vs, p, w)
  {
  }

  /** The accessor for the tree's kind goes to the k-th cell. */
  ghost predicate ElementAt(b: seq<byte>, p: nat, vs: seq<Value>, ts: seq<Tree>, bw: BitWidth, t: Tree, k: nat)
    requires k < |ts|
  {
    var q, w := p + Cells(k, ByteWidth(bw)), ByteWidth(bw);
    && k < |vs| && HasElem(b, p, w, t, k) && ElemTree(b, p, w, t, k) == ts[k]
    && (ElemRef(b, p, w, t, k) == Some(Unpack(q, w, vs[k].StoredPackedType(bw)))
        || (IsTypedElement(ts[k]) && ElemRef(b, p, w, t, k) == Some(Reference(q, w, 1, vs[k].ty))))
  }

  lemma ElementSeen(b: seq<byte>, p: nat, vs: seq<Value>, ts: seq<Tree>, bw: BitWidth, t: Tree, k: nat, s: iset<int>,
                    m: iset<int>)
    requires k < |ts| && ElementAt(b, p, vs, ts, bw, t, k)
    requires var q, w := p + Cells(k, ByteWidth(bw)), ByteWidth(bw);
             && Parted(b, Unpack(q, w, vs[k].StoredPackedType(bw)), ts[k], s, m)
             && (IsTypedElement(ts[k]) ==> Parted(b, Reference(q, w, 1, vs[k].ty), ts[k], s, m))
    ensures ElemParted(b, p, ByteWidth(bw), t, k, s, m)
  {
    hide Parted, Cells, ElemRef, Unpack;
  }

  lemma ElementsFound(b: seq<byte>, b': seq<byte>, p: nat, vs: seq<Value>, ts: seq<Tree>, bw: BitWidth, typed: bool,
                      fixed: bool, k: nat)
    requires Extends(b, b', p, vs, ts, bw, typed, fixed) && TreesOk(ts, typed, fixed) && k < |ts|
    requires ElementTypesOk(vs, typed, fixed, None)
    ensures ElementAt(b', p, vs, ts, bw, VectorTree(ts, typed, fixed), k)
  {
    hide Extends, ElementAt, ElementTypesOk, VectorTree, Cells, ElemRef;
    var w := ByteWidth(bw);
    CellsIs(k, w);
    ExtendsCount(b, b', p, vs, ts, bw, typed, fixed);
    if !typed {
      UntypedFound(b, b', p, vs, ts, bw, k);
    } else {
      TypedFound(b, b', p, vs, ts, bw, fixed, k);
    }
    FoundAt(b', p, vs, ts, bw, typed, fixed, k);
  }

  lemma FoundAt(b: seq<byte>, p: nat, vs: seq<Value>, ts: seq<Tree>, bw: BitWidth, typed: bool, fixed: bool, k: nat)
    requires k < |ts| == |vs|
    requires var q, w := p + Cells(k, ByteWidth(bw)), ByteWidth(bw);
             var r := ElemRef(b, p, w, VectorTree(ts, typed, fixed), k);
             || r == Some(Unpack(q, w, vs[k].StoredPackedType(bw)))
             || (IsTypedElement(ts[k]) && r == Some(Reference(q, w, 1, vs[k].ty)))
    ensures ElementAt(b, p, vs, ts, bw, VectorTree(ts, typed, fixed), k)
  {
    hide Cells, ElemRef, Unpack, IsTypedElement;
  }

  lemma UntypedFound(b: seq<byte>, b': seq<byte>, p: nat, vs: seq<Value>, ts: seq<Tree>, bw: BitWidth, k: nat)
    requires Extends(b, b', p, vs, ts, bw, false, false) && k < |ts| == |vs|
    ensures ElemRef(b', p, ByteWidth(bw), VectorTree(ts, false, false), k)
         == Some(Unpack(p + k * ByteWidth(bw), ByteWidth(bw), vs[k].StoredPackedType(bw)))
  {
    hide Denotes, Laid, AllHold, Cells, VectorAt, Unpack;
    CellsIs(k, ByteWidth(bw));
    VectorCellReads(b, b', p, vs, ts, bw, k);
  }

  lemma TypedFound(b: seq<byte>, b': seq<byte>, p: nat, vs: seq<Value>, ts: seq<Tree>, bw: BitWidth, fixed: bool,
                   k: nat)
    requires Extends(b, b', p, vs, ts, bw, true, fixed) && TreesOk(ts, true, fixed) && k < |ts| == |vs|
    requires ElementTypesOk(vs, true, fixed, None)
    ensures IsTypedElement(ts[k])
    ensures ElemRef(b', p, ByteWidth(bw), VectorTree(ts, true, fixed), k)
         == Some(Reference(p + k * ByteWidth(bw), ByteWidth(bw), 1, vs[k].ty))
  {
    hide Denotes, Laid, AllHold, Cells, TypedVectorAt, FixedTypedVectorAt;
    var w := ByteWidth(bw);
    TypesDenoted(b, vs, ts, true, fixed);
    if fixed {
      FixedCell(p, |ts|, w, ElementType(ts[0]), k);
    } else {
      SizeReads(b, b', p, vs, ts, bw, true);
      TypedCell(b', p, |vs|, w, ElementType(ts[0]), k);
    }
  }

  lemma FixedCell(p: nat, len: nat, w: nat, ety: Type, k: nat)
    requires k < len
    ensures FixedTypedVectorAt(FlexReader.TypedVector(p, w, ety), len, k) == Reference(p + k * w, w, 1, ety)
  {
  }

  /** A vector that was added keeps to its parts. */
  lemma VectorParted(b: seq<byte>, b': seq<byte>, p: nat, vs: seq<Value>, ts: seq<Tree>, bw: BitWidth, typed: bool,
                     fixed: bool, s: iset<int>, ms: seq<iset<int>>)
    requires Adds(b, b', p, vs, ts, bw, typed, fixed, s, ms) && TreesOk(ts, typed, fixed)
    requires ElementTypesOk(vs, typed, fixed, None)
    ensures |ms| == |vs|
    ensures PartedAt(b', p, ByteWidth(bw), VectorTree(ts, typed, fixed), After(b, b', p, vs, bw, s),
                     Union(WithCells(vs, ms, p, ByteWidth(bw))))
  {
    hide Extends, Tidy, After, ElementAt, PartedAt, ElementTypesOk;
    AddsParts(b, b', p, vs, ts, bw, typed, fixed, s, ms);
    FrameAdded(b, b', p, vs, ts, bw, typed, fixed, s, ms);
    forall k | 0 <= k < |ts|
      ensures ElementAt(b', p, vs, ts, bw, VectorTree(ts, typed, fixed), k)
    {
      ElementsFound(b, b', p, vs, ts, bw, typed, fixed, k);
    }
    VectorFrame(b', p, ByteWidth(bw), ts, typed, fixed, After(b, b', p, vs, bw, s));
    VectorAdded(b, b', p, vs, ts, bw, typed, fixed, s, ms, VectorTree(ts, typed, fixed));
  }

  lemma VectorFrame(b: seq<byte>, p: nat, w: nat, ts: seq<Tree>, typed: bool, fixed: bool, s: iset<int>)
    requires (fixed ==> typed) && (!fixed ==> In(p - w, ScalarSize(w), s)) && (!typed ==> In(p + |ts| * w, |ts|, s))
    ensures FrameIn(b, p, w, VectorTree(ts, typed, fixed), s)
  {
    hide In;
  }

  lemma AddsParts(b: seq<byte>, b': seq<byte>, p: nat, vs: seq<Value>, ts: seq<Tree>, bw: BitWidth, typed: bool,
                  fixed: bool, s: iset<int>, ms: seq<iset<int>>)
    requires Adds(b, b', p, vs, ts, bw, typed, fixed, s, ms)
    ensures |ms| == |vs| == |ts| && b <= b' && Lies(p, ByteWidth(bw))
  {
  }

  // ---------------------------------------------------------------- maps

  /** The keys vector of a map, as a value of its own, has its bytes in the structure. */
  lemma KeysParted(b: seq<byte>, keys: TypedVector, ks: seq<seq<byte>>, s: iset<int>, m: iset<int>)
    requires PartedAt(b, keys.data, keys.byteWidth, Tree.TypedVector(FBT_KEY, KeyTrees(ks)), s, m)
    requires KeysAre(b, keys, ks) && keys.ty == FBT_KEY
    ensures In(keys.data - keys.byteWidth, ScalarSize(keys.byteWidth), s)
    ensures forall i :: 0 <= i < |ks| ==> KeyIn(b, keys, i, s)
  {
    hide In, SizeAt, CStr;
    var t := Tree.TypedVector(FBT_KEY, KeyTrees(ks));
    var ms: seq<iset<int>> :| ElemsParted(b, keys.data, keys.byteWidth, t, s, m, ms);
    forall i | 0 <= i < |ks|
      ensures KeyIn(b, keys, i, s)
    {
      assert ElemParted(b, keys.data, keys.byteWidth, t, i, s, ms[i]);
      KeyParted(b, keys, i, ks[i], s, ms[i]);
    }
  }

  lemma KeyParted(b: seq<byte>, keys: TypedVector, i: nat, k: seq<byte>, s: iset<int>, m: iset<int>)
    requires Parted(b, Reference(keys.data + i * keys.byteWidth, keys.byteWidth, 1, FBT_KEY), Tree.Key(k), s, m)
    requires KeyAt(b, keys, i) == Some(k)
    ensures KeyIn(b, keys, i, s)
  {
    hide In, CStr;
  }

  /** A map that was added, with its keys vector before it, keeps to its parts. */
  lemma MapParted(b: seq<byte>, b': seq<byte>, p: nat, vs: seq<Value>, ts: seq<Tree>, bw: BitWidth, keys: Value,
                  ks: seq<seq<byte>>, s: iset<int>, ms: seq<iset<int>>, m: iset<int>)
    requires Adds(b, b', p, vs, ts, bw, false, false, s, ms) && |b| + 3 * ByteWidth(bw) <= p
    requires |ks| == |ts| && FlexMap.Ascending(ks)
    requires Denotes(b, keys, Tree.TypedVector(FBT_KEY, KeyTrees(ks)))
    requires ValueParted(b, keys, Tree.TypedVector(FBT_KEY, KeyTrees(ks)), s, m)
    requires KeysOf(b', p, ByteWidth(bw)) == Some(FlexReader.TypedVector(keys.u, ByteWidth(keys.minWidth), FBT_KEY))
    ensures |ms| == |vs|
    ensures PartedAt(b', p, ByteWidth(bw), Map(MapOf(ks, ts)), After(b, b', p, vs, bw, s),
                     Union(WithCells(vs, ms, p, ByteWidth(bw))))
  {
    hide Extends, Tidy, After, ElementAt, PartedAt, Denotes, FrameIn, MapOf;
    var w, s' := ByteWidth(bw), After(b, b', p, vs, bw, s);
    AddsParts(b, b', p, vs, ts, bw, false, false, s, ms);
    PartsTidy(b, b', p, vs, ts, bw, false, false, s, ms);
    AscendingDistinct(ks);
    MapOfPairs(ks, ts);
    KeysPlaceLies(b, keys, Tree.TypedVector(FBT_KEY, KeyTrees(ks)), s, m);
    MapFrame(b, b', p, vs, ts, bw, keys, ks, s, ms, m);
    forall k | 0 <= k < |ts|
      ensures ElementAt(b', p, vs, ts, bw, Map(MapOf(ks, ts)), k)
    {
      EntryFound(b, b', p, vs, ts, bw, keys, ks, k);
    }
    VectorAdded(b, b', p, vs, ts, bw, false, false, s, ms, Map(MapOf(ks, ts)));
  }

  lemma KeysPlaceLies(b: seq<byte>, keys: Value, t: Tree, s: iset<int>, m: iset<int>)
    requires ValueParted(b, keys, t, s, m) && t.TypedVector?
    ensures Lies(keys.u, ByteWidth(keys.minWidth))
  {
  }

  lemma EntryFound(b: seq<byte>, b': seq<byte>, p: nat, vs: seq<Value>, ts: seq<Tree>, bw: BitWidth, keys: Value,
                   ks: seq<seq<byte>>, k: nat)
    requires Extends(b, b', p, vs, ts, bw, false, false) && |ks| == |ts| && FlexMap.Ascending(ks) && k < |ts|
    requires Denotes(b, keys, Tree.TypedVector(FBT_KEY, KeyTrees(ks)))
    requires KeysOf(b', p, ByteWidth(bw)) == Some(FlexReader.TypedVector(keys.u, ByteWidth(keys.minWidth), FBT_KEY))
    ensures ElementAt(b', p, vs, ts, bw, Map(MapOf(ks, ts)), k)
  {
    hide Denotes, Laid, AllHold, Cells, VectorAt, Unpack, KeyAt, KeysOf, MapOf;
    var kv := FlexReader.TypedVector(keys.u, ByteWidth(keys.minWidth), FBT_KEY);
    KeysVectorReads(b, keys, ks);
    KeysAreGrows(b, b', kv, ks);
    AscendingDistinct(ks);
    MapOfPairs(ks, ts);
    VectorCellReads(b, b', p, vs, ts, bw, k);
  }

  lemma MapFrame(b: seq<byte>, b': seq<byte>, p: nat, vs: seq<Value>, ts: seq<Tree>, bw: BitWidth, keys: Value,
                 ks: seq<seq<byte>>, s: iset<int>, ms: seq<iset<int>>, m: iset<int>)
    requires Adds(b, b', p, vs, ts, bw, false, false, s, ms) && |b| + 3 * ByteWidth(bw) <= p
    requires |ks| == |ts| == |MapOf(ks, ts)|
    requires Denotes(b, keys, Tree.TypedVector(FBT_KEY, KeyTrees(ks)))
    requires ValueParted(b, keys, Tree.TypedVector(FBT_KEY, KeyTrees(ks)), s, m)
    requires KeysOf(b', p, ByteWidth(bw)) == Some(FlexReader.TypedVector(keys.u, ByteWidth(keys.minWidth), FBT_KEY))
    ensures FrameIn(b', p, ByteWidth(bw), Map(MapOf(ks, ts)), After(b, b', p, vs, bw, s))
  {
    hide Extends, Tidy, PartedAt, Denotes, KeysOf, MapOf, KeyIn, Structure;
    var w, s' := ByteWidth(bw), After(b, b', p, vs, bw, s);
    var kv := FlexReader.TypedVector(keys.u, ByteWidth(keys.minWidth), FBT_KEY);
    var kt := Tree.TypedVector(FBT_KEY, KeyTrees(ks));
    AddsParts(b, b', p, vs, ts, bw, false, false, s, ms);
    FrameAdded(b, b', p, vs, ts, bw, false, false, s, ms);
    WidthIsSize(w);
    OutsideStructure(s, |b|, |b'|, vs, p, w, p - w * 3, w);
    OutsideStructure(s, |b|, |b'|, vs, p, w, p - w * 3 + w, w);
    StructureMore(s, |b|, |b'|, vs, p, w);
    ValueGrows(b, b', keys, kt, s, m, s', m);
    KeysVectorReads(b, keys, ks);
    KeysAreGrows(b, b', kv, ks);
    KeysParted(b', kv, ks, s', m);
  }
}
