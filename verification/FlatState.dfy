/** What the builder knows about the buffer it grows, and that growing the buffer keeps all of it. */
module FlatState {
  import opened Options
  import opened Bytes
  import opened FlatReader
  import opened FlatObject
  import opened FlatVTable

  /** `c` is `b` with bytes in front. */
  ghost predicate Extends(c: seq<byte>, b: seq<byte>) {
    exists front: seq<byte> :: c == front + b
  }

  lemma ExtendsFront(front: seq<byte>, b: seq<byte>)
    ensures Extends(front + b, b)
  {
  }

  lemma ExtendsOn(d: seq<byte>, c: seq<byte>, b: seq<byte>)
    requires Extends(d, c) && Extends(c, b)
    ensures Extends(d, b)
  {
    var f: seq<byte> :| d == f + c;
    var g: seq<byte> :| c == g + b;
    Assoc(f, g, b);
    assert d == (f + g) + b;
  }

  lemma ExtendsPush(front: seq<byte>, c: seq<byte>, b: seq<byte>)
    requires Extends(c, b)
    ensures Extends(front + c, b)
  {
    var g: seq<byte> :| c == g + b;
    Assoc(front, g, b);
  }

  lemma ExtendsSelf(b: seq<byte>)
    ensures Extends(b, b)
  {
    assert b == [] + b;
  }

  lemma StoredWithin(b: seq<byte>, off: int, o: Obj)
    requires Stored(b, off, o)
    ensures 4 <= off <= |b|
  {
  }

  lemma StoredStays(c: seq<byte>, b: seq<byte>, off: int, o: Obj)
    requires Extends(c, b) && Stored(b, off, o)
    ensures Stored(c, off, o)
  {
    var front: seq<byte> :| c == front + b;
    StoredGrows(front, b, off, o);
  }

  lemma FieldStays(c: seq<byte>, b: seq<byte>, off: int, fld: Field)
    requires Extends(c, b) && FieldStored(b, off, fld)
    ensures FieldStored(c, off, fld)
  {
    var front: seq<byte> :| c == front + b;
    FieldGrows(front, b, off, fld);
  }

  lemma RefStays(c: seq<byte>, b: seq<byte>, off: int, child: Obj)
    requires Extends(c, b) && RefStored(b, off, child)
    ensures RefStored(c, off, child)
  {
    var front: seq<byte> :| c == front + b;
    RefGrows(front, b, off, child);
  }

  // ---------------------------------------------------------------- alignment needs

  /** No part of the object needs more than `m`. */
  ghost predicate AlignsWithin(o: Obj, m: nat) {
    4 <= m &&
    match o
    case Str(_) => true
    case Scalars(size, _) => size <= m
    case Offsets(children) => forall i :: 0 <= i < |children| ==> AlignsWithin(children[i], m)
    case Table(fields) => forall f :: f in fields ==> FieldAlignsWithin(fields[f], m)
  }

  ghost predicate FieldAlignsWithin(fld: Field, m: nat) {
    match fld
    case Inline(align, _) => align <= m
    case Ref(child) => AlignsWithin(child, m)
  }

  lemma {:induction false} AlignsWithinMore(o: Obj, m: nat, k: nat)
    requires AlignsWithin(o, m) && m <= k
    ensures AlignsWithin(o, k)
    decreases o
  {
    match o {
      case Str(_) =>
      case Scalars(_, _) =>
      case Offsets(children) =>
        forall i | 0 <= i < |children|
          ensures AlignsWithin(children[i], k)
        {
          AlignsWithinMore(children[i], m, k);
        }
      case Table(fields) =>
        forall f | f in fields
          ensures FieldAlignsWithin(fields[f], k)
        {
          FieldAlignsWithinMore(fields[f], m, k);
        }
    }
  }

  lemma {:induction false} FieldAlignsWithinMore(fld: Field, m: nat, k: nat)
    requires FieldAlignsWithin(fld, m) && m <= k
    ensures FieldAlignsWithin(fld, k)
    decreases fld
  {
    if fld.Ref? {
      AlignsWithinMore(fld.child, m, k);
    }
  }

  // ---------------------------------------------------------------- the builder's knowledge

  /** Every object made so far, by the offset returned for it. */
  ghost predicate ObjsOk(b: seq<byte>, objs: map<nat, Obj>, m: nat) {
    forall off :: off in objs ==> Stored(b, off, objs[off]) && AlignsWithin(objs[off], m)
  }

  lemma ObjsStay(c: seq<byte>, b: seq<byte>, objs: map<nat, Obj>, m: nat, k: nat)
    requires Extends(c, b) && ObjsOk(b, objs, m) && m <= k
    ensures ObjsOk(c, objs, k)
  {
    hide Stored, Extends, AlignsWithin;
    forall off | off in objs
      ensures Stored(c, off, objs[off]) && AlignsWithin(objs[off], k)
    {
      StoredStays(c, b, off, objs[off]);
      AlignsWithinMore(objs[off], m, k);
    }
  }

  /** The vtable that starts `vt` bytes before the end. */
  ghost function VTableOf(b: seq<byte>, vt: nat): seq<byte> {
    if 2 <= vt <= |b| then
      var p := |b| - vt;
      var n := FromLE(b[p..p + 2]);
      if p + n <= |b| then b[p..p + n] else []
    else
      []
  }

  ghost predicate VTablesOk(b: seq<byte>, vtables: seq<nat>) {
    forall i :: 0 <= i < |vtables| ==> VTableAt(b, vtables[i], VTableOf(b, vtables[i]))
  }

  lemma VTableOfAt(b: seq<byte>, vt: nat, v: seq<byte>)
    requires VTableAt(b, vt, v)
    ensures VTableOf(b, vt) == v
  {
    hide FromLE;
    var p := |b| - vt;
    HasBytesSlice(b, p, v);
    SubRead(b, p, v, 0, 2);
  }

  lemma VTableStays(c: seq<byte>, b: seq<byte>, vt: nat, v: seq<byte>)
    requires Extends(c, b) && VTableAt(b, vt, v)
    ensures VTableAt(c, vt, v) && VTableOf(c, vt) == v
  {
    var front: seq<byte> :| c == front + b;
    VTableAtGrows(front, b, vt, v);
    VTableOfAt(c, vt, v);
  }

  lemma VTablesStay(c: seq<byte>, b: seq<byte>, vtables: seq<nat>)
    requires Extends(c, b) && VTablesOk(b, vtables)
    ensures VTablesOk(c, vtables)
    ensures forall i :: 0 <= i < |vtables| ==> VTableOf(c, vtables[i]) == VTableOf(b, vtables[i])
  {
    hide VTableAt, VTableOf, Extends;
    forall i | 0 <= i < |vtables|
      ensures VTableAt(c, vtables[i], VTableOf(c, vtables[i])) && VTableOf(c, vtables[i]) == VTableOf(b, vtables[i])
    {
      VTableStays(c, b, vtables[i], VTableOf(b, vtables[i]));
    }
  }

  /** No two vtables on the list have the same bytes. */
  ghost predicate VTablesDistinct(b: seq<byte>, vtables: seq<nat>) {
    forall i, j :: 0 <= i < j < |vtables| ==> VTableOf(b, vtables[i]) != VTableOf(b, vtables[j])
  }

  /** The table `t` has its vtable `vt` bytes before the end. */
  ghost predicate UsesVTable(b: seq<byte>, objs: map<nat, Obj>, t: nat, vt: nat) {
    t in objs && objs[t].Table? && GetVTable(b, |b| - t) == Some(|b| - vt)
  }

  ghost predicate InUse(b: seq<byte>, objs: map<nat, Obj>, vt: nat) {
    exists t :: UsesVTable(b, objs, t, vt)
  }

  ghost predicate Listed(b: seq<byte>, objs: map<nat, Obj>, vtables: seq<nat>, t: nat) {
    exists vt :: vt in vtables && UsesVTable(b, objs, t, vt)
  }

  lemma UseStays(c: seq<byte>, b: seq<byte>, objs: map<nat, Obj>, t: nat, vt: nat)
    requires Extends(c, b) && UsesVTable(b, objs, t, vt)
    ensures UsesVTable(c, objs, t, vt)
  {
    var front: seq<byte> :| c == front + b;
    VTableGrows(front, b, |b| - t);
    assert |c| - t == |front| + (|b| - t);
  }

  lemma InUseStays(c: seq<byte>, b: seq<byte>, objs: map<nat, Obj>, vt: nat)
    requires Extends(c, b) && InUse(b, objs, vt)
    ensures InUse(c, objs, vt)
  {
    hide UsesVTable, Extends;
    var t :| UsesVTable(b, objs, t, vt);
    UseStays(c, b, objs, t, vt);
  }

  lemma ListedStays(c: seq<byte>, b: seq<byte>, objs: map<nat, Obj>, vtables: seq<nat>, t: nat)
    requires Extends(c, b) && Listed(b, objs, vtables, t)
    ensures Listed(c, objs, vtables, t)
  {
    hide UsesVTable, Extends;
    var vt :| vt in vtables && UsesVTable(b, objs, t, vt);
    UseStays(c, b, objs, t, vt);
  }

  lemma UseKept(b: seq<byte>, objs: map<nat, Obj>, off: nat, o: Obj, t: nat, vt: nat)
    requires UsesVTable(b, objs, t, vt) && off !in objs
    ensures UsesVTable(b, objs[off := o], t, vt)
  {
  }

  lemma InUseKept(b: seq<byte>, objs: map<nat, Obj>, off: nat, o: Obj, vt: nat)
    requires InUse(b, objs, vt) && off !in objs
    ensures InUse(b, objs[off := o], vt)
  {
    hide UsesVTable;
    var t :| UsesVTable(b, objs, t, vt);
    UseKept(b, objs, off, o, t, vt);
  }

  lemma ListedKept(b: seq<byte>, objs: map<nat, Obj>, off: nat, o: Obj, vtables: seq<nat>, more: seq<nat>, t: nat)
    requires Listed(b, objs, vtables, t) && off !in objs && vtables <= more
    ensures Listed(b, objs[off := o], more, t)
  {
    hide UsesVTable;
    var vt :| vt in vtables && UsesVTable(b, objs, t, vt);
    UseKept(b, objs, off, o, t, vt);
    var i :| 0 <= i < |vtables| && vtables[i] == vt;
    assert more[i] == vt;
  }

  /**
   * The list on the scratch stack: each vtable is that of some table; until the buffer is finished, each table has
   * its vtable on the list; and if vtables have always been shared, no two on the list are alike.
   */
  ghost predicate VTablesKnown(b: seq<byte>, objs: map<nat, Obj>, vtables: seq<nat>, shared: bool, open: bool) {
    && VTablesOk(b, vtables)
    && (forall i :: 0 <= i < |vtables| ==> InUse(b, objs, vtables[i]))
    && (open ==> forall t :: t in objs && objs[t].Table? ==> Listed(b, objs, vtables, t))
    && (shared ==> VTablesDistinct(b, vtables))
  }

  lemma VTablesKnownStay(c: seq<byte>, b: seq<byte>, k: Knowledge)
    requires Extends(c, b) && VTablesKnown(b, k.objs, k.vtables, k.shared, k.open)
    ensures VTablesKnown(c, k.objs, k.vtables, k.shared, k.open)
    ensures forall i :: 0 <= i < |k.vtables| ==> VTableOf(c, k.vtables[i]) == VTableOf(b, k.vtables[i])
  {
    hide VTablesOk, VTablesDistinct, InUse, Listed, Extends, VTableOf;
    VTablesStay(c, b, k.vtables);
    if k.shared {
      DistinctStays(c, b, k.vtables);
    }
    forall i | 0 <= i < |k.vtables|
      ensures InUse(c, k.objs, k.vtables[i])
    {
      InUseStays(c, b, k.objs, k.vtables[i]);
    }
    forall t | k.open && t in k.objs && k.objs[t].Table?
      ensures Listed(c, k.objs, k.vtables, t)
    {
      ListedStays(c, b, k.objs, k.vtables, t);
    }
  }

  /** The fields of the table being built, where they were written. */
  ghost predicate PendingOk(b: seq<byte>, locs: seq<FieldLoc>, flds: seq<Field>, start: nat, maxVOffset: nat, m: nat) {
    && |locs| == |flds| && start <= |b| && maxVOffset < 0xFFFE && maxVOffset % 2 == 0
    && (forall i :: 0 <= i < |locs| ==> IsField(locs[i].id) && locs[i].id <= maxVOffset && start < locs[i].off <= |b|)
    && (forall i :: 0 <= i < |locs| ==> FieldStored(b, locs[i].off, flds[i]) && FieldAlignsWithin(flds[i], m))
  }

  lemma PendingStay(c: seq<byte>, b: seq<byte>, locs: seq<FieldLoc>, flds: seq<Field>, start: nat, maxVOffset: nat,
                    m: nat, k: nat)
    requires Extends(c, b) && PendingOk(b, locs, flds, start, maxVOffset, m) && m <= k
    ensures PendingOk(c, locs, flds, start, maxVOffset, k)
  {
    hide FieldStored, FieldAlignsWithin, Extends;
    assert |b| <= |c| by {
      PendingLonger(c, b);
    }
    forall i | 0 <= i < |locs|
      ensures FieldStored(c, locs[i].off, flds[i]) && FieldAlignsWithin(flds[i], k)
    {
      FieldStays(c, b, locs[i].off, flds[i]);
      FieldAlignsWithinMore(flds[i], m, k);
    }
  }

  lemma PendingLonger(c: seq<byte>, b: seq<byte>)
    requires Extends(c, b)
    ensures |b| <= |c|
  {
  }

  /**
   * The objects made and the vtables written so far, and the table being built: its fields, where they were
   * written, and where it began. Offsets count from the end of the buffer. `shared` holds while vtables have been
   * shared all along, `open` until the buffer is finished.
   */
  datatype Knowledge = Knowledge(
    objs: map<nat, Obj>,
    vtables: seq<nat>,
    locs: seq<FieldLoc>,
    flds: seq<Field>,
    start: nat,
    shared: bool,
    open: bool)

  const NOTHING: Knowledge := Knowledge(map[], [], [], [], 0, true, true)

  ghost predicate Knows(b: seq<byte>, k: Knowledge, maxVOffset: nat, m: nat) {
    && ObjsOk(b, k.objs, m)
    && VTablesKnown(b, k.objs, k.vtables, k.shared, k.open)
    && PendingOk(b, k.locs, k.flds, k.start, maxVOffset, m)
  }

  /** Bytes in front change nothing that is known. */
  lemma KnowsStays(c: seq<byte>, b: seq<byte>, k: Knowledge, maxVOffset: nat, m: nat, n: nat)
    requires Extends(c, b) && Knows(b, k, maxVOffset, m) && m <= n
    ensures Knows(c, k, maxVOffset, n)
    ensures forall i :: 0 <= i < |k.vtables| ==> VTableOf(c, k.vtables[i]) == VTableOf(b, k.vtables[i])
  {
    hide ObjsOk, VTablesKnown, PendingOk, Extends, VTableOf;
    ObjsStay(c, b, k.objs, m, n);
    VTablesKnownStay(c, b, k);
    PendingStay(c, b, k.locs, k.flds, k.start, maxVOffset, m, n);
  }

  /** A new string or vector. */
  lemma KnowsObject(b: seq<byte>, k: Knowledge, maxVOffset: nat, m: nat, off: nat, o: Obj)
    requires Knows(b, k, maxVOffset, m) && Stored(b, off, o) && AlignsWithin(o, m) && off !in k.objs && !o.Table?
    ensures Knows(b, k.(objs := k.objs[off := o]), maxVOffset, m)
  {
    hide Stored, AlignsWithin, VTablesOk, VTablesDistinct, PendingOk, InUse, Listed;
    var objs := k.objs[off := o];
    forall i | 0 <= i < |k.vtables|
      ensures InUse(b, objs, k.vtables[i])
    {
      InUseKept(b, k.objs, off, o, k.vtables[i]);
    }
    forall t | k.open && t in objs && objs[t].Table?
      ensures Listed(b, objs, k.vtables, t)
    {
      ListedKept(b, k.objs, off, o, k.vtables, k.vtables, t);
    }
  }

  lemma KnowsStarted(b: seq<byte>, k: Knowledge, m: nat)
    requires Knows(b, k, 0, m) && k.locs == []
    ensures Knows(b, k.(start := |b|), 0, m)
  {
    hide ObjsOk, VTablesKnown;
  }

  lemma NothingKnown(m: nat)
    ensures Knows([], NOTHING, 0, m) && OffsetsBytes([]) + LocsBytes([]) == []
  {
  }

  lemma KnowsField(b: seq<byte>, k: Knowledge, maxVOffset: nat, m: nat, off: nat, id: nat, fld: Field)
    requires Knows(b, k, maxVOffset, m) && FieldStored(b, off, fld) && FieldAlignsWithin(fld, m)
    requires IsField(id) && k.start < off <= |b|
    ensures Knows(b, k.(locs := k.locs + [FieldLoc(off, id)], flds := k.flds + [fld]),
                  if id > maxVOffset then id else maxVOffset, m)
  {
    hide ObjsOk, VTablesKnown, FieldStored, FieldAlignsWithin;
  }

  /** Pool entries are strings made earlier, no two alike. */
  ghost predicate PoolOk(pool: set<nat>, objs: map<nat, Obj>) {
    && (forall e :: e in pool ==> e in objs && objs[e].Str?)
    && forall d, e :: d in pool && e in pool && d != e ==> objs[d].s != objs[e].s
  }

  // ---------------------------------------------------------------- strings and vectors as laid out

  function ScalarBytes(elems: seq<nat>, size: nat): (s: seq<byte>)
    requires IsAlignment(size)
    ensures |s| == Stride(|elems|, size)
  {
    if elems == [] then []
    else
      StrideIs(|elems| - 1, size);
      ScalarBytes(elems[..|elems| - 1], size) + ToLE(elems[|elems| - 1], size)
  }

  lemma {:induction false} ScalarAt(elems: seq<nat>, size: nat, i: nat)
    requires IsAlignment(size) && i < |elems|
    ensures Stride(i, size) + size <= Stride(|elems|, size)
    ensures ScalarBytes(elems, size)[Stride(i, size)..Stride(i, size) + size] == ToLE(elems[i], size)
    decreases |elems|
  {
    hide Stride, FromLE, ToLE;
    var n := |elems| - 1;
    StrideIs(n, size);
    if i < n {
      assert elems[..n][i] == elems[i];
      ScalarAt(elems[..n], size, i);
      SliceLeft(ScalarBytes(elems[..n], size), ToLE(elems[n], size), Stride(i, size), size);
    } else {
      SliceRight(ScalarBytes(elems[..n], size), ToLE(elems[n], size), 0, size);
    }
  }

  lemma StoredString(b: seq<byte>, off: int, s: seq<byte>)
    requires Stored(b, off, Str(s))
    ensures 4 <= off && StringStored(b, off, s)
  {
  }

  lemma StringAt(b: seq<byte>, off: nat, s: seq<byte>)
    requires off % 4 == 0 && StringStored(b, off, s)
    ensures Stored(b, off, Str(s))
  {
  }

  lemma ScalarsAt(b: seq<byte>, off: nat, size: nat, elems: seq<nat>)
    requires off % 4 == 0 && ScalarsStored(b, off, size, elems)
    ensures Stored(b, off, Scalars(size, elems))
  {
  }

  /** Length, bytes and terminator, with no padding between them. */
  lemma StringLaid(s: seq<byte>, rest: seq<byte>)
    requires |s| < 0x1_0000_0000 && Aligned(|rest| + (|s| + 1), 4)
    ensures Stored(ToLE(|s|, 4) + s + [0] + rest, |rest| + |s| + 5, Str(s))
  {
    hide StringStored, Stored, ToLE, Mask;
    AlignedFour(|rest| + (|s| + 1));
    StringInPlace(s, rest);
    StringAt(ToLE(|s|, 4) + s + [0] + rest, |rest| + |s| + 5, s);
  }

  lemma StringFrom(b: seq<byte>, off: nat, s: seq<byte>)
    requires |s| < 0x1_0000_0000 && |s| + 5 <= off <= |b|
    requires HasBytes(b, |b| - off, ToLE(|s|, 4)) && HasBytes(b, |b| - off + 4, s) && b[|b| - off + 4 + |s|] == 0
    ensures StringStored(b, off, s)
  {
    hide FromLE, ToLE;
    HasBytesSlice(b, |b| - off, ToLE(|s|, 4));
    HasBytesSlice(b, |b| - off + 4, s);
    Powers();
    FromToLE(|s|, 4);
  }

  lemma StringInPlace(s: seq<byte>, rest: seq<byte>)
    requires |s| < 0x1_0000_0000
    ensures StringStored(ToLE(|s|, 4) + s + [0] + rest, |rest| + |s| + 5, s)
  {
    hide FromLE, ToLE, StringStored;
    var b := ToLE(|s|, 4) + s + [0] + rest;
    assert HasBytes(b, 0, ToLE(|s|, 4)) && HasBytes(b, 4, s);
    StringFrom(b, |rest| + |s| + 5, s);
  }

  /** Length and elements in order, with no padding between them. */
  lemma ScalarsLaid(elems: seq<nat>, size: nat, rest: seq<byte>)
    requires IsScalarSize(size) && |elems| < 0x1_0000_0000
    requires forall i :: 0 <= i < |elems| ==> elems[i] < Pow256(size)
    requires Aligned(|rest| + Stride(|elems|, size), 4) && Aligned(|rest| + Stride(|elems|, size), size)
    ensures Stored(ToLE(|elems|, 4) + ScalarBytes(elems, size) + rest, |rest| + Stride(|elems|, size) + 4,
                   Scalars(size, elems))
  {
    hide ScalarsStored, Stored, ToLE, Mask, Aligned, Stride, ScalarBytes;
    var n := |rest| + Stride(|elems|, size);
    var b := ToLE(|elems|, 4) + ScalarBytes(elems, size) + rest;
    AlignedFour(n);
    assert n + 4 == |b|;
    ScalarsInPlace(elems, size, rest);
    ScalarsAt(b, n + 4, size, elems);
  }

  lemma ScalarsInPlace(elems: seq<nat>, size: nat, rest: seq<byte>)
    requires IsScalarSize(size) && |elems| < 0x1_0000_0000
    requires forall i :: 0 <= i < |elems| ==> elems[i] < Pow256(size)
    requires Aligned(|rest| + Stride(|elems|, size), size)
    ensures ScalarsStored(ToLE(|elems|, 4) + ScalarBytes(elems, size) + rest, |rest| + Stride(|elems|, size) + 4,
                          size, elems)
  {
    hide ScalarBytes, VectorGet, Stride, Mask, Aligned, FromLE, ToLE;
    var head, cells := ToLE(|elems|, 4), ScalarBytes(elems, size);
    var b := head + cells + rest;
    Powers();
    FromToLE(|elems|, 4);
    SliceMid([], head, cells + rest, 0, 4);
    assert [] + head + (cells + rest) == b;
    forall i | 0 <= i < |elems|
      ensures VectorGet(b, 0, i, size) == Some(elems[i])
    {
      ScalarCell(elems, size, rest, i);
    }
  }

  lemma ScalarCell(elems: seq<nat>, size: nat, rest: seq<byte>, i: nat)
    requires IsScalarSize(size) && i < |elems| < 0x1_0000_0000 && elems[i] < Pow256(size)
    ensures VectorGet(ToLE(|elems|, 4) + ScalarBytes(elems, size) + rest, 0, i, size) == Some(elems[i])
  {
    hide ScalarBytes, ToLE, FromLE, Pow256;
    var head, cells, at := ToLE(|elems|, 4), ScalarBytes(elems, size), Stride(i, size);
    var b := head + cells + rest;
    Powers();
    FromToLE(|elems|, 4);
    SliceMid([], head, cells + rest, 0, 4);
    assert [] + head + (cells + rest) == b;
    ScalarAt(elems, size, i);
    SliceMid(head, cells, rest, at, size);
    FromToLE(elems[i], size);
    hide Stride;
    assert VectorSize(b, 0) == Some(|elems|);
    assert ReadUInt(b, 4 + at, size) == Some(elems[i]);
  }

  /** An offset just pushed leads to an object pushed before. */
  lemma RefLaid(b: seq<byte>, off: nat, child: Obj)
    requires Stored(b, off, child) && |b| % 4 == 0 && |b| + 4 < 0x8000_0000
    ensures RefStored(ToLE(|b| - off + 4, 4) + b, |b| + 4, child)
  {
    var u := |b| - off + 4;
    var c := ToLE(u, 4) + b;
    Powers();
    FromToLE(u, 4);
    assert c[0..4] == ToLE(u, 4);
    StoredGrows(ToLE(u, 4), b, off, child);
  }

  // ---------------------------------------------------------------- padding

  lemma PadsTo(n: nat, len: nat, s: nat)
    requires IsAlignment(s) && IsU64(n + len)
    ensures Aligned(PaddingBytes(n + len, s) + n + len, s) && PaddingBytes(n + len, s) < s
  {
    PaddingAligns(n + len, s, 0);
  }

  lemma AlignedFour(n: nat)
    ensures Aligned(n, 4) ==> n % 4 == 0 && (n + 4) % 4 == 0
    ensures n % 4 == 0 ==> Aligned(n, 4)
  {
  }

  lemma NoPadding(n: nat, s: nat)
    requires IsAlignment(s) && IsU64(n) && Aligned(n, s)
    ensures PaddingBytes(n, s) == 0
  {
    PaddingAligns(n, s, 0);
  }

  lemma AlignedSum(n: nat, k: nat, s: nat)
    requires IsAlignment(s) && Aligned(n, s) && Aligned(k, s)
    ensures Aligned(n + k, s)
  {
  }

  /** The bytes that CreateString pushes, one push after the other, over `p` bytes of padding. */
  lemma StringPushed(d0: seq<byte>, s: seq<byte>, p: nat, d1: seq<byte>, d2: seq<byte>)
    requires |s| < 0x1_0000_0000 && Aligned(p + |d0| + (|s| + 1), 4)
    requires d1 == Zeros(p) + d0 && d2 == s + (Zeros(1) + d1)
    ensures Aligned(|d2|, 4) && Extends(ToLE(|s|, 4) + d2, d0)
    ensures Stored(ToLE(|s|, 4) + d2, |d2| + 4, Str(s))
  {
    hide *;
    assert |d2| == p + |d0| + (|s| + 1) == |d1| + (|s| + 1);
    StringExtends(d0, s, p, d1, d2);
    StringInOrder(s, d1);
    StringLaid(s, d1);
  }

  lemma StringExtends(d0: seq<byte>, s: seq<byte>, p: nat, d1: seq<byte>, d2: seq<byte>)
    requires d1 == Zeros(p) + d0 && d2 == s + (Zeros(1) + d1)
    ensures Extends(ToLE(|s|, 4) + d2, d0)
  {
    hide *;
    ExtendsSelf(d0);
    ExtendsPush(Zeros(p), d0, d0);
    ExtendsPush(Zeros(1), d1, d0);
    ExtendsPush(s, Zeros(1) + d1, d0);
    ExtendsPush(ToLE(|s|, 4), d2, d0);
  }

  lemma StringInOrder(s: seq<byte>, rest: seq<byte>)
    ensures ToLE(|s|, 4) + (s + (Zeros(1) + rest)) == ToLE(|s|, 4) + s + [0] + rest
  {
    hide ToLE;
    assert Zeros(1) == [0];
    Assoc(ToLE(|s|, 4), s, [0] + rest);
    Assoc(ToLE(|s|, 4) + s, [0], rest);
  }

  /** After StartVector the elements and the length follow without padding. */
  lemma VectorPushed(elems: seq<nat>, size: nat, d1: seq<byte>, d2: seq<byte>)
    requires IsScalarSize(size) && |elems| < 0x1_0000_0000
    requires forall i :: 0 <= i < |elems| ==> elems[i] < Pow256(size)
    requires Aligned(|d1| + Stride(|elems|, size), 4) && Aligned(|d1| + Stride(|elems|, size), size)
    requires d2 == ScalarBytes(elems, size) + d1
    ensures Aligned(|d2|, 4) && Stored(ToLE(|elems|, 4) + d2, |d2| + 4, Scalars(size, elems))
  {
    hide ToLE, Stored, PaddingBytes, Extends, Mask, Aligned, Stride, ScalarBytes;
    assert |d2| == |d1| + Stride(|elems|, size);
    Assoc(ToLE(|elems|, 4), ScalarBytes(elems, size), d1);
    ScalarsLaid(elems, size, d1);
  }

  lemma StrideAtLeast(k: nat, size: nat)
    requires IsAlignment(size)
    ensures k <= Stride(k, size)
  {
  }

  /** The bytes that pushing an offset writes, over `p` bytes of padding. */
  lemma OffsetPushed(b0: seq<byte>, p: nat, b1: seq<byte>, off: nat, child: Obj)
    requires Stored(b0, off, child) && b1 == Zeros(p) + b0 && |b1| % 4 == 0 && |b1| + 4 < 0x8000_0000
    ensures off <= |b1| && Extends(ToLE(|b1| - off + 4, 4) + b1, b0)
    ensures RefStored(ToLE(|b1| - off + 4, 4) + b1, |b1| + 4, child)
  {
    hide *;
    StoredWithin(b0, off, child);
    ExtendsFront(Zeros(p), b0);
    StoredStays(b1, b0, off, child);
    RefLaid(b1, off, child);
    ExtendsPush(ToLE(|b1| - off + 4, 4), b1, b0);
  }

  ghost function Children(objs: map<nat, Obj>, v: seq<nat>): (c: seq<Obj>)
    requires forall i :: 0 <= i < |v| ==> v[i] in objs
    ensures |c| == |v| && forall i :: 0 <= i < |v| ==> c[i] == objs[v[i]]
  {
    seq(|v|, i requires 0 <= i < |v| => objs[v[i]])
  }

  lemma ReadFrom(b: seq<byte>, p: nat, u: nat, n: nat)
    requires HasBytes(b, p, ToLE(u, n)) && n == 4 && u < 0x1_0000_0000
    ensures ReadUInt(b, p, n) == Some(u)
  {
    hide ToLE, FromLE;
    HasBytesSlice(b, p, ToLE(u, n));
    Powers();
    FromToLE(u, n);
  }

  lemma OffsetsAt(b: seq<byte>, off: nat, children: seq<Obj>)
    requires off % 4 == 0 && 4 <= off <= |b| && VectorSize(b, |b| - off) == Some(|children|)
    requires forall i :: 0 <= i < |children| ==> RefStored(b, off - 4 - 4 * i, children[i])
    ensures Stored(b, off, Offsets(children))
  {
    hide RefStored, VectorSize;
  }

  lemma OffsetsLaid(b: seq<byte>, children: seq<Obj>)
    requires |b| % 4 == 0 && |children| < 0x1_0000_0000
    requires forall i :: 0 <= i < |children| ==> RefStored(b, |b| - 4 * i, children[i])
    ensures Stored(ToLE(|children|, 4) + b, |b| + 4, Offsets(children))
  {
    hide RefStored, Stored, ToLE, FromLE;
    var head := ToLE(|children|, 4);
    assert HasBytes(head + b, 0, head);
    ReadFrom(head + b, 0, |children|, 4);
    forall i | 0 <= i < |children|
      ensures RefStored(head + b, |b| + 4 - 4 - 4 * i, children[i])
    {
      RefGrows(head, b, |b| - 4 * i, children[i]);
    }
    OffsetsAt(head + b, |b| + 4, children);
  }

  lemma InlinePushed(b0: seq<byte>, p: nat, bytes: seq<byte>, align: nat)
    requires IsAlignment(align) && |bytes| > 0 && Aligned(|bytes + Zeros(p) + b0|, align)
    ensures FieldStored(bytes + Zeros(p) + b0, |bytes + Zeros(p) + b0|, Inline(align, bytes))
    ensures Extends(bytes + Zeros(p) + b0, b0)
  {
    ExtendsFront(bytes + Zeros(p), b0);
    Assoc(bytes, Zeros(p), b0);
    SliceLeft(bytes, Zeros(p) + b0, 0, |bytes|);
  }

  // ---------------------------------------------------------------- closing a table

  lemma FieldMapAligns(locs: seq<FieldLoc>, flds: seq<Field>, m: nat)
    requires |locs| == |flds| && 4 <= m && forall i :: 0 <= i < |flds| ==> FieldAlignsWithin(flds[i], m)
    ensures AlignsWithin(Table(FieldMap(locs, flds)), m)
  {
    forall f | f in FieldMap(locs, flds)
      ensures FieldAlignsWithin(FieldMap(locs, flds)[f], m)
    {
      FieldMapAligned(locs, flds, m, f);
    }
  }

  lemma {:induction false} FieldMapAligned(locs: seq<FieldLoc>, flds: seq<Field>, m: nat, f: nat)
    requires |locs| == |flds| && forall i :: 0 <= i < |flds| ==> FieldAlignsWithin(flds[i], m)
    requires f in FieldMap(locs, flds)
    ensures FieldAlignsWithin(FieldMap(locs, flds)[f], m)
    decreases |locs|
  {
    var k := |locs| - 1;
    if locs[k].id != f {
      FieldMapAligned(locs[..k], flds[..k], m, f);
    }
  }

  /** A vtable just written at the front. */
  lemma NewVTable(v: seq<byte>, rest: seq<byte>)
    requires 4 <= |v| < 0x1_0000 && |v| % 2 == 0 && |rest| % 4 == 0 && FromLE(v[..2]) == |v|
    ensures VTableAt(v + rest, |v| + |rest|, v)
  {
    hide FromLE;
  }

  /** The buffer once the table's offset to its vtable is filled in. */
  lemma TableClosed(b0: seq<byte>, b: seq<byte>, table: nat, vt: nat, n: nat, objectSize: nat,
                    locs: seq<FieldLoc>, flds: seq<Field>)
    requires |locs| == |flds| && LocsOk(locs, table, n) && 4 <= n < 0x1_0000 && n % 2 == 0
    requires table % 4 == 0 && 4 <= table <= |b| < 0x8000_0000 && vt <= |b|
    requires Extends(b, b0) && ReadUInt(b, |b| - table, 4) == Some(OfI32(vt - table))
    requires VTableAt(b, vt, VTable(locs, table, n, objectSize))
    requires forall i :: 0 <= i < |locs| ==> FieldStored(b0, locs[i].off, flds[i])
    ensures Stored(b, table, Table(FieldMap(locs, flds)))
  {
    hide Stored, FieldStored, VTableAt, FieldMap, VTable, LocsOk, Extends, OfI32, ReadUInt;
    forall i | 0 <= i < |locs|
      ensures FieldStored(b, locs[i].off, flds[i])
    {
      FieldStays(b, b0, locs[i].off, flds[i]);
    }
    TableStored(b, table, vt, n, objectSize, locs, flds);
  }

  /** The table under construction is done: its fields are no longer pending. */
  lemma KnowsTable(b: seq<byte>, k: Knowledge, maxVOffset: nat, m: nat, table: nat, o: Obj, vtables: seq<nat>,
                   vt: nat, shared: bool)
    requires Knows(b, k, maxVOffset, m) && Stored(b, table, o) && AlignsWithin(o, m) && VTablesOk(b, vtables)
    requires o.Table? && table !in k.objs && vt in vtables && GetVTable(b, |b| - table) == Some(|b| - vt)
    requires vtables == k.vtables || vtables == k.vtables + [vt]
    requires shared ==> VTablesDistinct(b, vtables)
    ensures Knows(b, Knowledge(k.objs[table := o], vtables, [], [], k.start, shared, k.open), 0, m)
  {
    hide Stored, AlignsWithin, VTablesOk, VTablesDistinct, GetVTable, InUse, Listed;
    var objs := k.objs[table := o];
    NewUse(b, k.objs, table, o, vt, vtables);
    forall i | 0 <= i < |vtables|
      ensures InUse(b, objs, vtables[i])
    {
      if i < |k.vtables| {
        InUseKept(b, k.objs, table, o, k.vtables[i]);
      }
    }
    forall t | k.open && t in objs && objs[t].Table?
      ensures Listed(b, objs, vtables, t)
    {
      if t != table {
        ListedKept(b, k.objs, table, o, k.vtables, vtables, t);
      }
    }
  }

  lemma NewUse(b: seq<byte>, objs: map<nat, Obj>, table: nat, o: Obj, vt: nat, vtables: seq<nat>)
    requires o.Table? && GetVTable(b, |b| - table) == Some(|b| - vt) && vt in vtables
    ensures InUse(b, objs[table := o], vt) && Listed(b, objs[table := o], vtables, table)
  {
    assert UsesVTable(b, objs[table := o], table, vt);
  }

  lemma VTablesSnoc(b: seq<byte>, vtables: seq<nat>, vt: nat, v: seq<byte>)
    requires VTablesOk(b, vtables) && VTableAt(b, vt, v)
    ensures VTablesOk(b, vtables + [vt]) && VTableOf(b, vt) == v
    ensures VTablesDistinct(b, vtables) && !HasVTable(b, vtables, v) ==> VTablesDistinct(b, vtables + [vt])
  {
    VTableOfAt(b, vt, v);
    hide VTableAt, VTableOf;
  }

  ghost predicate HasVTable(b: seq<byte>, vtables: seq<nat>, v: seq<byte>) {
    exists i :: 0 <= i < |vtables| && VTableOf(b, vtables[i]) == v
  }

  /** The vtable that a closed table uses is in the buffer, whether it is its own or an earlier one. */
  lemma UsedVTable(b0: seq<byte>, front: seq<byte>, rest: seq<byte>, vt: nat, v: seq<byte>)
    requires Extends(front + rest, b0) && |rest| % 4 == 0
    requires if front == [] then VTableAt(b0, vt, v) else front == v && vt == |front| + |rest|
    requires 4 <= |v| < 0x1_0000 && |v| % 2 == 0 && FromLE(v[..2]) == |v|
    ensures VTableAt(front + rest, vt, v)
  {
    hide FromLE, Extends, VTableAt, VTableOf;
    if front == [] {
      VTableStays(front + rest, b0, vt, v);
    } else {
      NewVTable(v, rest);
    }
  }

  lemma DistinctStays(c: seq<byte>, b: seq<byte>, vtables: seq<nat>)
    requires VTablesDistinct(b, vtables)
    requires forall i :: 0 <= i < |vtables| ==> VTableOf(c, vtables[i]) == VTableOf(b, vtables[i])
    ensures VTablesDistinct(c, vtables)
  {
    hide VTableOf;
  }

  /**
   * What EndTable does, given what was known before. With or without sharing of vtables the table reads as the
   * fields that were added; an earlier vtable with the same bytes is used, and the new one dropped, exactly when
   * vtables are shared and there is one.
   */
  ghost predicate TableEnds(b0: seq<byte>, k: Knowledge, b: seq<byte>, after: Knowledge, table: nat, n: nat,
                            dedup: bool) {
    && |k.locs| == |k.flds| && LocsOk(k.locs, table, n) && n >= 4 && k.start <= table <= |b| && |b0| < table
    && after.objs == k.objs[table := Table(FieldMap(k.locs, k.flds))] && after.locs == [] && after.flds == []
    && var v := VTable(k.locs, table, n, table - k.start);
       && (if dedup && HasVTable(b0, k.vtables, v) then after.vtables == k.vtables && |b| == table
           else after.vtables == k.vtables + [|b|] && |b| == table + |v|)
       && (exists vt :: vt in after.vtables && VTableOf(b, vt) == v && GetVTable(b, |b| - table) == Some(|b| - vt))
       && after.shared == (k.shared && dedup) && after.open == k.open
  }

  /** Everything known after EndTable. */
  lemma EndTableKnows(b0: seq<byte>, p: nat, front: seq<byte>, b: seq<byte>, table: nat, vt: nat, n: nat,
                      k: Knowledge, maxVOffset: nat, m: nat, mm: nat, dedup: bool) returns (after: Knowledge)
    requires Knows(b0, k, maxVOffset, m) && m <= mm && 4 <= mm && k.start <= table && table !in k.objs
    requires LocsOk(k.locs, table, n) && 4 <= n < 0x1_0000 && n % 2 == 0
    requires table == 4 + p + |b0| && table % 4 == 0 && table <= |b| < 0x8000_0000 && vt <= |b|
    requires b == front + (ToLE(OfI32(vt - table), 4) + (Zeros(p) + b0))
    requires var v := VTable(k.locs, table, n, table - k.start);
             && (if front == [] then vt in k.vtables && VTableAt(b0, vt, v) else front == v && vt == |b|)
             && (front == [] <==> dedup && HasVTable(b0, k.vtables, v))
    ensures Extends(b, b0) && Knows(b, after, 0, mm) && TableEnds(b0, k, b, after, table, n, dedup)
    ensures after.vtables == if front == [] then k.vtables else k.vtables + [vt]
  {
    hide Stored, FieldStored, ToLE, FieldMap, VTable, LocsOk, Extends, OfI32, VTableAt, VTableOf, VTablesOk,
      VTablesDistinct, VTablesKnown, HasVTable, ObjsOk, AlignsWithin, FieldAlignsWithin, GetVTable, Zeros, TableEnds,
      PendingOk;
    var v := VTable(k.locs, table, n, table - k.start);
    PendingAligns(b0, k, maxVOffset, m);
    var soff := ToLE(OfI32(vt - table), 4);
    FrontExtends(front, soff, p, b0);
    SoffsetRead(front, OfI32(vt - table), p, b0);
    EndTableBytes(b0, front, soff + (Zeros(p) + b0), b, table, vt, n, table - k.start, k.locs, k.flds);
    after := EndTableLearns(b0, b, table, vt, v, k, maxVOffset, m, mm, dedup);
    EndTableSums(b0, k, b, after, table, vt, n, dedup);
  }

  lemma EndTableBytes(b0: seq<byte>, front: seq<byte>, rest: seq<byte>, b: seq<byte>, table: nat, vt: nat, n: nat,
                      objectSize: nat, locs: seq<FieldLoc>, flds: seq<Field>)
    requires |locs| == |flds| && LocsOk(locs, table, n) && 4 <= n < 0x1_0000 && n % 2 == 0
    requires table == |rest| && table % 4 == 0 && 4 <= table <= |b| < 0x8000_0000 && vt <= |b|
    requires b == front + rest && Extends(b, b0) && ReadUInt(b, |b| - table, 4) == Some(OfI32(vt - table))
    requires var v := VTable(locs, table, n, objectSize);
             if front == [] then VTableAt(b0, vt, v) else front == v && vt == |b|
    requires forall i :: 0 <= i < |locs| ==> FieldStored(b0, locs[i].off, flds[i])
    ensures VTableAt(b, vt, VTable(locs, table, n, objectSize))
    ensures GetVTable(b, |b| - table) == Some(|b| - vt) && Stored(b, table, Table(FieldMap(locs, flds)))
  {
    hide Stored, FieldStored, FieldMap, VTable, LocsOk, Extends, OfI32, VTableAt, GetVTable, ReadUInt, FromLE;
    VTableSize(locs, table, n, objectSize);
    UsedVTable(b0, front, rest, vt, VTable(locs, table, n, objectSize));
    TableClosed(b0, b, table, vt, n, objectSize, locs, flds);
    TableVTable(b, table, vt, VTable(locs, table, n, objectSize));
  }

  lemma EndTableLearns(b0: seq<byte>, b: seq<byte>, table: nat, vt: nat, v: seq<byte>, k: Knowledge, maxVOffset: nat,
                       m: nat, mm: nat, dedup: bool) returns (after: Knowledge)
    requires Knows(b0, k, maxVOffset, m) && m <= mm && 4 <= mm && table !in k.objs && |k.locs| == |k.flds|
    requires Extends(b, b0) && VTableAt(b, vt, v) && GetVTable(b, |b| - table) == Some(|b| - vt)
    requires Stored(b, table, Table(FieldMap(k.locs, k.flds)))
    requires dedup && HasVTable(b0, k.vtables, v) ==> vt in k.vtables
    ensures Knows(b, after, 0, mm) && VTableOf(b, vt) == v && vt in after.vtables
    ensures after.objs == k.objs[table := Table(FieldMap(k.locs, k.flds))] && after.locs == [] && after.flds == []
    ensures after.vtables == if dedup && HasVTable(b0, k.vtables, v) then k.vtables else k.vtables + [vt]
    ensures after.shared == (k.shared && dedup) && after.open == k.open
  {
    hide Stored, FieldMap, Extends, VTableAt, VTableOf, VTablesOk, VTablesDistinct, VTablesKnown, HasVTable, ObjsOk,
      AlignsWithin,
      FieldAlignsWithin, GetVTable, PendingOk, Knows;
    var o := Table(FieldMap(k.locs, k.flds));
    KnowsStays(b, b0, k, maxVOffset, m, mm);
    PendingAligns(b, k, maxVOffset, mm);
    FieldMapAligns(k.locs, k.flds, mm);
    VTablesSnoc(b, k.vtables, vt, v);
    SameHasVTable(b, b0, k.vtables, v);
    var vtables := if dedup && HasVTable(b0, k.vtables, v) then k.vtables else k.vtables + [vt];
    if k.shared && dedup {
      KnowsDistinct(b, k, maxVOffset, mm);
    }
    KnowsTable(b, k, maxVOffset, mm, table, o, vtables, vt, k.shared && dedup);
    after := Knowledge(k.objs[table := o], vtables, [], [], k.start, k.shared && dedup, k.open);
  }

  lemma EndTableSums(b0: seq<byte>, k: Knowledge, b: seq<byte>, after: Knowledge, table: nat, vt: nat, n: nat,
                     dedup: bool)
    requires |k.locs| == |k.flds| && LocsOk(k.locs, table, n) && n >= 4 && k.start <= table <= |b| && |b0| < table
    requires after.objs == k.objs[table := Table(FieldMap(k.locs, k.flds))] && after.locs == [] && after.flds == []
    requires after.shared == (k.shared && dedup) && after.open == k.open
    requires vt in after.vtables && GetVTable(b, |b| - table) == Some(|b| - vt)
    requires var v := VTable(k.locs, table, n, table - k.start);
             && VTableOf(b, vt) == v
             && if dedup && HasVTable(b0, k.vtables, v) then after.vtables == k.vtables && |b| == table
                else after.vtables == k.vtables + [|b|] && |b| == table + |v|
    ensures TableEnds(b0, k, b, after, table, n, dedup)
  {
    hide VTable, VTableOf, HasVTable, GetVTable, FieldMap, LocsOk;
  }

  lemma KnowsDistinct(b: seq<byte>, k: Knowledge, maxVOffset: nat, m: nat)
    requires Knows(b, k, maxVOffset, m) && k.shared
    ensures VTablesDistinct(b, k.vtables)
  {
  }

  lemma SameHasVTable(c: seq<byte>, b: seq<byte>, vtables: seq<nat>, v: seq<byte>)
    requires forall i :: 0 <= i < |vtables| ==> VTableOf(c, vtables[i]) == VTableOf(b, vtables[i])
    ensures HasVTable(c, vtables, v) <==> HasVTable(b, vtables, v)
  {
    hide VTableOf;
  }

  lemma FrontExtends(front: seq<byte>, soff: seq<byte>, p: nat, b0: seq<byte>)
    ensures Extends(front + (soff + (Zeros(p) + b0)), b0)
  {
    hide Extends;
    ExtendsSelf(b0);
    ExtendsPush(Zeros(p), b0, b0);
    ExtendsPush(soff, Zeros(p) + b0, b0);
    ExtendsPush(front, soff + (Zeros(p) + b0), b0);
  }

  lemma SoffsetRead(front: seq<byte>, u: nat, p: nat, b0: seq<byte>)
    requires u < 0x1_0000_0000
    ensures ReadUInt(front + (ToLE(u, 4) + (Zeros(p) + b0)), |front|, 4) == Some(u)
  {
    hide ToLE, FromLE, Zeros;
    Assoc(front, ToLE(u, 4), Zeros(p) + b0);
    SliceMid(front, ToLE(u, 4), Zeros(p) + b0, 0, 4);
    Powers();
    FromToLE(u, 4);
  }

  lemma PendingAligns(b: seq<byte>, k: Knowledge, maxVOffset: nat, m: nat)
    requires Knows(b, k, maxVOffset, m)
    ensures |k.locs| == |k.flds| && VTablesOk(b, k.vtables)
    ensures forall i :: 0 <= i < |k.locs| ==> FieldStored(b, k.locs[i].off, k.flds[i])
    ensures forall i :: 0 <= i < |k.flds| ==> FieldAlignsWithin(k.flds[i], m)
  {
    hide FieldStored, FieldAlignsWithin, ObjsOk, VTablesOk, VTablesDistinct, InUse, Listed;
  }

  /** The root can be found from the start of the buffer, and the identifier and the size are in place. */
  ghost predicate IsFinished(b: seq<byte>, root: nat, fileIdentifier: Option<seq<byte>>, sizePrefix: bool) {
    && root <= |b|
    && (if sizePrefix then ReadUInt(b, 0, 4) == Some(|b| - 4) && GetSizePrefixedRoot(b) == Some(|b| - root)
        else GetRoot(b) == Some(|b| - root))
    && (fileIdentifier.Some? ==> GetBufferIdentifier(b, sizePrefix) == fileIdentifier)
  }

  /** The header in front: the size, the root's offset, the identifier and the padding. */
  lemma HeaderExtends(b0: seq<byte>, p: nat, id: seq<byte>, o4: seq<byte>, prefix: seq<byte>)
    ensures Extends(id + (Zeros(p) + b0), b0) && Extends(prefix + (o4 + (id + (Zeros(p) + b0))), b0)
  {
    hide Extends;
    ExtendsSelf(b0);
    ExtendsPush(Zeros(p), b0, b0);
    ExtendsPush(id, Zeros(p) + b0, b0);
    ExtendsPush(o4, id + (Zeros(p) + b0), b0);
    ExtendsPush(prefix, o4 + (id + (Zeros(p) + b0)), b0);
  }
}
